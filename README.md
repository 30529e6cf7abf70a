# Bluetooth stack cores, modelled in Dafny

This project models three sequential cores of the Android/ChromeOS Bluetooth
stack and proves properties of them.

- **RootCanal controller properties** (`tools/rootcanal/model/controller/controller_properties.cc`):
  - the default LMP and LL feature words, built by OR-ing the feature bits;
  - the supported-commands bitmap, with octet `index / 10` and bit `index % 10`;
  - the range-checked configuration readers `ParseUint`, `ParseUintArray` and `ParseUintVector`;
  - the transport flags, which take precedence over two bits of LMP page 0;
  - `CheckSupportedFeatures`: the reserved bits of each LMP version (Bluetooth Core Specification, Vol 2, Part C, section 3.3) and the feature requirements of Tables 3.5 to 3.9 (section 3.5);
  - the command requirement combinators and `check_command_requirement` (Vol 4, Part E, section 3).

  Modules: `ControllerFeatures`, `ControllerFeatureCheck`, `ControllerCommands`, `ControllerConfig`.
- **Floss media service telephony** (`system/gd/rust/linux/stack/src/bluetooth_media.rs`):
  - the call list and the phone-state counters, changed by the handlers behind dial, incoming, answer, hang-up and the three call-hold (CHLD) commands;
  - allocation of the least free call index;
  - the telephony status setters;
  - the connected-profile table;
  - the HFP and A2DP connection-state summaries and the final HFP codec.

  Modules: `MediaCalls` (the list operations and the consistency invariant they keep) and `MediaService` (the `BluetoothMedia` object).
- **Per-app advertising statistics of the GATT service** (`android/app/src/com/android/bluetooth/gatt/AppAdvertiseStats.java`):
  - the start/stop record history, trimmed to five records on re-enable;
  - the last parameters and payload summaries an app used;
  - the hex and PHY formatting helpers of the dump.

  Module: `AdvertiseStats`.

Where the source changes state in place, the model is imperative:
- `ControllerProperties`, `BluetoothMedia` and `AppAdvertiseStats` are classes whose methods update their fields.
- The accumulation loops (`FoldFeatures`, `SupportedCommands`, `ParseUintArray`, `ParseUintVector`, `Retain`, `ResumeFirstHeld`, `SwapActiveAndHeld`, `PrintByteArrayInHex`) are methods with loop invariants.
- Each method is proved against a specification function. The properties of that function are proved as lemmas.

Effects and notifications the service sends to the HFP stack (`phone_state_change`, `device_status_notification`, `notify_media_capability_updated`) are appended to an `effects` sequence. Of what `notify_media_capability_updated` does to the service's own state, the model keeps the cleanup of the connected-profile table: a device whose last profile is removed loses its entry.

## Model

| member | source | states |
|---|---|---|
| ControllerFeatures.FoldFeatures | tools/rootcanal/model/controller/controller_properties.cc:82-86 | the `value \|=` loop yields the left fold of OR over the listed features |
| ControllerFeatures.Page0LmpFeatures | tools/rootcanal/model/controller/controller_properties.cc:30-87 | the page 0 word is the OR of its listed features |
| ControllerFeatures.Page2LmpFeatures | tools/rootcanal/model/controller/controller_properties.cc:89-100 | the page 2 word is the OR of its listed features |
| ControllerFeatures.LlFeatures | tools/rootcanal/model/controller/controller_properties.cc:102-125 | the LL feature word is the OR of its listed features |
| ControllerFeatures.OrAllCovers | tools/rootcanal/model/controller/controller_properties.cc:82-86 | every listed feature's bits are in the folded word |
| ControllerFeatures.ListedBitSet | tools/rootcanal/model/controller/controller_properties.cc:82-86 | every listed non-zero feature is supported by the folded word |
| ControllerFeatures.OrAllLeast | tools/rootcanal/model/controller/controller_properties.cc:82-86 | the folded word is the least word containing every listed feature |
| ControllerFeatures.OrAllSameSet | tools/rootcanal/model/controller/controller_properties.cc:82-86 | lists with the same elements give the same word: order and duplicates do not matter |
| ControllerFeatures.OrAllSupports | tools/rootcanal/model/controller/controller_properties.cc:82-86 | the word supports a mask exactly when some listed feature does |
| ControllerFeatureCheck.MaskGroup | tools/rootcanal/model/controller/controller_properties.cc:665-718 | each version selects one of eight reserved-mask pairs; unlisted versions fall to the 5.3 masks |
| ControllerFeatureCheck.MaskGroupMonotonic | tools/rootcanal/model/controller/controller_properties.cc:665-718 | a later version never selects an earlier mask group |
| ControllerFeatureCheck.Page0Steps | tools/rootcanal/model/controller/controller_properties.cc:665-718 | each page 0 reserved mask reserves no bit its predecessor defines, the park state bit aside |
| ControllerFeatureCheck.Page2Steps | tools/rootcanal/model/controller/controller_properties.cc:665-718 | each page 2 reserved mask reserves no bit its predecessor defines |
| ControllerFeatureCheck.Page0Shrinks | tools/rootcanal/model/controller/controller_properties.cc:665-718 | any later page 0 mask is within any earlier one, the park state bit aside |
| ControllerFeatureCheck.Page2Shrinks | tools/rootcanal/model/controller/controller_properties.cc:665-718 | any later page 2 mask is within any earlier one |
| ControllerFeatureCheck.ReservedShrinks | tools/rootcanal/model/controller/controller_properties.cc:665-718 | a later LMP version reserves no bit an earlier version defines, except park state |
| ControllerFeatureCheck.CheckAcceptsLaterVersions | tools/rootcanal/model/controller/controller_properties.cc:657-961 | pages accepted for a version, without the park state bit, are accepted for every later version |
| ControllerFeatureCheck.CheckSupportedFeatures | tools/rootcanal/model/controller/controller_properties.cc:657-961 | true exactly when neither page sets a reserved bit of the version and every row of Tables 3.5 to 3.9 holds |
| ControllerCommands.PackCommands | tools/rootcanal/model/controller/controller_properties.cc:410-417 | the bitmap built from an all-zero array has 64 octets |
| ControllerCommands.SupportedCommands | tools/rootcanal/model/controller/controller_properties.cc:127-418 | the packing loop builds the bitmap of the listed indices |
| ControllerCommands.PackCommandsBits | tools/rootcanal/model/controller/controller_properties.cc:410-417 | bit b of octet o is set exactly when a listed index has octet o and bit b; nothing else is set |
| ControllerCommands.SupportsPackedCommand | tools/rootcanal/model/controller/controller_properties.cc:410-417 | a command reads back as supported exactly when it is listed and its bit fits the octet |
| ControllerCommands.MandatoryOrExcluded | tools/rootcanal/model/controller/controller_properties.cc:1004-1006 | mandatory exactly when the condition holds, never optional |
| ControllerCommands.MandatoryOrOptional | tools/rootcanal/model/controller/controller_properties.cc:1007-1009 | mandatory exactly when the condition holds, never excluded |
| ControllerCommands.OptionalOrExcludedAsWritten | tools/rootcanal/model/controller/controller_properties.cc:1010-1012 | as written: mandatory exactly when the condition holds, never optional |
| ControllerCommands.OptionalOrExcluded | tools/rootcanal/model/controller/controller_properties.cc:1010-1012 | as intended: optional exactly when the condition holds, never mandatory |
| ControllerCommands.MandatoryOrOptionalOrExcluded | tools/rootcanal/model/controller/controller_properties.cc:1013-1015 | mandatory exactly under the first condition, optional exactly under the second without the first |
| ControllerCommands.CommandRequirement | tools/rootcanal/model/controller/controller_properties.cc:1026-1033 | the LE requirement without BR/EDR, the BR/EDR one without LE, otherwise the stronger of the two |
| ControllerCommands.CheckCommandRequirement | tools/rootcanal/model/controller/controller_properties.cc:1023-1042 | fails exactly when the combined requirement is mandatory and the command is unsupported, or excluded and it is supported |
| ControllerCommands.CommandRequirementSymmetric | tools/rootcanal/model/controller/controller_properties.cc:1026-1033 | with both transports, the two requirements play symmetric roles |
| ControllerCommands.OptionalOrExcludedNeverRequires | tools/rootcanal/model/controller/controller_properties.cc:1010-1012 | rows built from the intended combinator never require the command |
| ControllerCommands.OptionalOrExcludedAsWrittenRejectsOptionalCommand | tools/rootcanal/model/controller/controller_properties.cc:1471-1473 | with C135 true, the combinator as written rejects a controller that omits the optional command; the intended one accepts it |
| ControllerCommands.FailedRows | tools/rootcanal/model/controller/controller_properties.cc:1604-1613 | a row is reported exactly when it is in the table and fails its check |
| ControllerCommands.CheckSupportedCommands | tools/rootcanal/model/controller/controller_properties.cc:963-1968 | the result is always true; the failing rows, and only those, are logged |
| ControllerCommands.SampleRows | tools/rootcanal/model/controller/controller_properties.cc:1617-1966 | seven representative rows with their C3, C9, C10, C134 and C135 conditions, C10 and C135 built with optional_or_excluded as written |
| ControllerCommands.ErroneousDataReportingRequiredWithSco | tools/rootcanal/model/controller/controller_properties.cc:1933 | a BR/EDR-only controller with SCO links that leaves WRITE_DEFAULT_ERRONEOUS_DATA_REPORTING out has that C135 row logged, as the combinator as written makes it mandatory |
| ControllerCommands.VoiceSettingExcludedWithoutSco | tools/rootcanal/model/controller/controller_properties.cc:1966 | a BR/EDR-only controller without SCO or eSCO that lists WRITE_VOICE_SETTING has that row logged |
| ControllerConfig.Field | tools/rootcanal/model/controller/controller_properties.cc:424 | a missing field reads as null |
| ControllerConfig.ParseUint | tools/rootcanal/model/controller/controller_properties.cc:420-439 | succeeds exactly for a text field within the target range, and then writes it; otherwise the output is kept |
| ControllerConfig.ParseUintArray | tools/rootcanal/model/controller/controller_properties.cc:441-477 | always returns false; the array becomes ArrayParsed of its old contents |
| ControllerConfig.ArrayParsedKeepsOnMismatch | tools/rootcanal/model/controller/controller_properties.cc:447-462 | a non-array, empty or wrong-size field writes nothing |
| ControllerConfig.ArrayParsedAt | tools/rootcanal/model/controller/controller_properties.cc:464-474 | each in-range element replaces its position; an out-of-range one keeps the old value |
| ControllerConfig.ArrayParsedIdempotent | tools/rootcanal/model/controller/controller_properties.cc:586-602 | reading lmp_features twice is reading it once |
| ControllerConfig.InRange | tools/rootcanal/model/controller/controller_properties.cc:495-506 | the kept elements are no more than the input, and all within range |
| ControllerConfig.InRangeMembers | tools/rootcanal/model/controller/controller_properties.cc:495-506 | an element is kept exactly when it is listed and within range |
| ControllerConfig.InRangeAppend | tools/rootcanal/model/controller/controller_properties.cc:495-506 | filtering keeps input order |
| ControllerConfig.ParseUintVector | tools/rootcanal/model/controller/controller_properties.cc:479-509 | always returns false; the vector is cleared and refilled with the in-range elements |
| ControllerConfig.LmpVersionFromCode | tools/rootcanal/model/controller/controller_properties.cc:619 | the version cast from a code has that code |
| ControllerConfig.LmpVersionRoundTrip | tools/rootcanal/model/controller/controller_properties.cc:619 | every version, an unlisted one included, survives the trip through its numeric code |
| ControllerConfig.TransportOverride | tools/rootcanal/model/controller/controller_properties.cc:621-645 | neither flag means both; LE_SUPPORTED is set exactly with LE and SIMULTANEOUS exactly with both; all other page 0 bits are unchanged |
| ControllerConfig.SetBothBits | tools/rootcanal/model/controller/controller_properties.cc:622-626 | both transports set both bits and change nothing else |
| ControllerConfig.SetLeBitOnly | tools/rootcanal/model/controller/controller_properties.cc:627-631 | LE only clears SIMULTANEOUS, sets LE_SUPPORTED and changes nothing else |
| ControllerConfig.ClearBothBits | tools/rootcanal/model/controller/controller_properties.cc:632-636 | BR/EDR only clears both bits and changes nothing else |
| ControllerConfig.TransportOverrideIdempotent | tools/rootcanal/model/controller/controller_properties.cc:621-645 | applying the transport block to its own outcome changes nothing |
| ControllerConfig.SameTransportBits | tools/rootcanal/model/controller/controller_properties.cc:621-645 | a page 0 word is determined by its two transport bits and the rest |
| ControllerConfig.ScoDataPacketLengthAsWritten | tools/rootcanal/model/controller/controller_properties.cc:560-590 | a valid value under the key with the trailing space wins, else a valid legacy ScoDataPacketSize value, else the length is kept |
| ControllerConfig.ScoDataPacketLength | tools/rootcanal/model/controller/controller_properties.cc:590 | a valid sco_data_packet_length setting is taken |
| ControllerConfig.ScoDataPacketLengthKeyIgnored | tools/rootcanal/model/controller/controller_properties.cc:590 | under the key as written, a configured length of 60 leaves 64 in place |
| ControllerConfig.ControllerProperties.constructor | tools/rootcanal/model/controller/controller_properties.cc:521-524 | the defaults: the packed commands, the default feature words, both transports; version, codecs and packet length as given |
| ControllerConfig.ControllerProperties.ApplyTransportFlags | tools/rootcanal/model/controller/controller_properties.cc:621-645 | page 0 and the flags become the transport override; nothing else changes |
| ControllerConfig.ControllerProperties.ReadSettings | tools/rootcanal/model/controller/controller_properties.cc:560-619 | each modelled field is what its reader leaves, in the constructor's order, the packet length read under the key with the trailing space |
| ControllerConfig.ControllerProperties.Configure | tools/rootcanal/model/controller/controller_properties.cc:560-655 | the readers, then the transport override of page 0, then the final feature check, whose outcome is CheckSupportedFeatures of the new version and pages |
| MediaCalls.Count | system/gd/rust/linux/stack/src/bluetooth_media.rs:1189-1296 | the number of calls in a state is at most the list length |
| MediaCalls.CountAppend | system/gd/rust/linux/stack/src/bluetooth_media.rs:1963-1979 | counts add over concatenation |
| MediaCalls.CountUpdate | system/gd/rust/linux/stack/src/bluetooth_media.rs:1194-1200 | changing one call's state moves one from its old count to its new one |
| MediaCalls.Without | system/gd/rust/linux/stack/src/bluetooth_media.rs:1221-1224 | a `retain` keeps no more calls than it had |
| MediaCalls.WithoutMembers | system/gd/rust/linux/stack/src/bluetooth_media.rs:1221-1224 | a call is kept exactly when it was listed and its state is not removed |
| MediaCalls.WithoutAppend | system/gd/rust/linux/stack/src/bluetooth_media.rs:1221-1224 | `retain` keeps list order |
| MediaCalls.WithoutCount | system/gd/rust/linux/stack/src/bluetooth_media.rs:1221-1224 | removed states count zero afterwards; every other count is kept |
| MediaCalls.WithoutDistinct | system/gd/rust/linux/stack/src/bluetooth_media.rs:1221-1224 | `retain` keeps indices distinct |
| MediaCalls.Retain | system/gd/rust/linux/stack/src/bluetooth_media.rs:1249 | the loop yields exactly the calls `retain` keeps |
| MediaCalls.FirstWith | system/gd/rust/linux/stack/src/bluetooth_media.rs:1194-1200 | the first position whose call is in the given states, or the length when there is none |
| MediaCalls.IndexSet | system/gd/rust/linux/stack/src/bluetooth_media.rs:1171-1175 | the set of used indices, no larger than the list |
| MediaCalls.UsedIndicesBound | system/gd/rust/linux/stack/src/bluetooth_media.rs:1171-1175 | if indices 1 to r are all used there are at least r calls, so a free index exists |
| MediaCalls.ResetConsistent | system/gd/rust/linux/stack/src/bluetooth_media.rs:1941-1957 | both lists a phone-ops change leaves are consistent with their counters |
| MediaCalls.AppendFresh | system/gd/rust/linux/stack/src/bluetooth_media.rs:1235-1240 | appending a call with an unused index keeps indices distinct and counts one more of its state |
| MediaCalls.ActivateFirst | system/gd/rust/linux/stack/src/bluetooth_media.rs:1194-1200 | activating a call keeps the list length |
| MediaCalls.ActivateFirstCount | system/gd/rust/linux/stack/src/bluetooth_media.rs:1194-1200 | exactly one call moves from its state to Active |
| MediaCalls.ActivateFirstIndices | system/gd/rust/linux/stack/src/bluetooth_media.rs:1194-1200 | activating a call keeps the indices positive and distinct |
| MediaCalls.HoldSwap | system/gd/rust/linux/stack/src/bluetooth_media.rs:1280-1294 | CHLD=2 keeps the list length |
| MediaCalls.HoldSwapOtherCounts | system/gd/rust/linux/stack/src/bluetooth_media.rs:1280-1294 | CHLD=2 changes only active and held calls |
| MediaCalls.HoldSwapIndices | system/gd/rust/linux/stack/src/bluetooth_media.rs:1280-1294 | CHLD=2 keeps the indices positive and distinct |
| MediaCalls.AppendConsistent | system/gd/rust/linux/stack/src/bluetooth_media.rs:1228-1243 | a new incoming or dialing call from idle, with the least free index, keeps the list consistent |
| MediaCalls.AnswerConsistent | system/gd/rust/linux/stack/src/bluetooth_media.rs:1189-1203 | a waiting call exists; answering it leaves a consistent list with one more active call |
| MediaCalls.HangupConsistent | system/gd/rust/linux/stack/src/bluetooth_media.rs:1205-1226 | hanging up leaves only held calls, consistent with the counters |
| MediaCalls.ReleaseHeldConsistent | system/gd/rust/linux/stack/src/bluetooth_media.rs:1245-1252 | dropping the held calls keeps the list consistent |
| MediaCalls.ReleaseActiveAcceptHeldConsistent | system/gd/rust/linux/stack/src/bluetooth_media.rs:1254-1270 | one call is resumed exactly when one was held, and the list stays consistent |
| MediaCalls.HoldSwapConsistent | system/gd/rust/linux/stack/src/bluetooth_media.rs:1272-1296 | active plus held is kept, one call is active exactly when one was held, and the list stays consistent |
| MediaCalls.ResumeFirstHeld | system/gd/rust/linux/stack/src/bluetooth_media.rs:1261-1268 | the loop resumes the first held call and moves one from the held to the active counter |
| MediaCalls.SwapActiveAndHeld | system/gd/rust/linux/stack/src/bluetooth_media.rs:1277-1294 | the loop holds every active call and resumes the first held one, with counters to match |
| MediaService.HighestUnique | system/gd/rust/linux/stack/src/bluetooth_media.rs:1035-1062 | the highest state is unique, so the summary does not depend on map order |
| MediaService.FinalCodecs | system/gd/rust/linux/stack/src/bluetooth_media.rs:1827-1847 | non-zero exactly while the device's HFP audio is connected; 2 exactly when it also has mSBC |
| MediaService.WithoutProfile | system/gd/rust/linux/stack/src/bluetooth_media.rs:845-873 | the profile is removed from the device; a device left with no profile loses its entry, so no device maps to an empty set; other devices are untouched |
| MediaService.WithoutProfileUndoesWithProfile | system/gd/rust/linux/stack/src/bluetooth_media.rs:306-335 | in a table without empty entries, connecting a profile that was not connected and then disconnecting it restores the table exactly |
| MediaService.BluetoothMedia.constructor | system/gd/rust/linux/stack/src/bluetooth_media.rs:249-292 | empty call list, idle phone, phone ops off, empty state tables |
| MediaService.BluetoothMedia.AddConnectedProfile | system/gd/rust/linux/stack/src/bluetooth_media.rs:306-316 | afterwards the profile is connected; it is added and announced only if it was not connected |
| MediaService.BluetoothMedia.RmConnectedProfile | system/gd/rust/linux/stack/src/bluetooth_media.rs:317-335 | afterwards the profile is disconnected; if it was connected, the table becomes WithoutProfile (an emptied device is dropped) and a critical notice (when asked) precedes the update; no device is left with an empty set |
| MediaService.BluetoothMedia.GetHfpConnectionState | system/gd/rust/linux/stack/src/bluetooth_media.rs:1031-1064 | Active exactly when some HFP audio is connected, otherwise the highest per-device state |
| MediaService.BluetoothMedia.GetA2dpConnectionState | system/gd/rust/linux/stack/src/bluetooth_media.rs:1066-1096 | Active exactly when some A2DP audio is started, otherwise the highest per-device state |
| MediaService.BluetoothMedia.NewCallIndex | system/gd/rust/linux/stack/src/bluetooth_media.rs:1171-1175 | the least positive index no call uses |
| MediaService.BluetoothMedia.IncomingCall | system/gd/rust/linux/stack/src/bluetooth_media.rs:1963-1979 | succeeds exactly with ops on, idle and no active call; then one incoming call with the least free index is appended; otherwise nothing changes |
| MediaService.BluetoothMedia.DialingCall | system/gd/rust/linux/stack/src/bluetooth_media.rs:1228-1243 | same guard as an incoming call; appends one outgoing dialing call |
| MediaService.BluetoothMedia.AnswerCall | system/gd/rust/linux/stack/src/bluetooth_media.rs:1189-1203 | succeeds exactly with ops on and a call waiting; the waiting call becomes active, the phone idle, one call active |
| MediaService.BluetoothMedia.HangupCall | system/gd/rust/linux/stack/src/bluetooth_media.rs:1205-1226 | succeeds exactly when idle with an active call or with a call waiting; only held calls remain, in order |
| MediaService.BluetoothMedia.ReleaseHeld | system/gd/rust/linux/stack/src/bluetooth_media.rs:1245-1252 | succeeds exactly with ops on and idle; every held call is dropped |
| MediaService.BluetoothMedia.ReleaseActiveAcceptHeld | system/gd/rust/linux/stack/src/bluetooth_media.rs:1254-1270 | succeeds exactly with ops on and idle; the active call is dropped and the first held one resumed |
| MediaService.BluetoothMedia.HoldActiveAcceptHeld | system/gd/rust/linux/stack/src/bluetooth_media.rs:1272-1296 | succeeds exactly with ops on and idle; active plus held is kept and at most one call is active |
| MediaService.BluetoothMedia.SetPhoneOpsEnabled | system/gd/rust/linux/stack/src/bluetooth_media.rs:1935-1961 | the same value changes nothing; a change clears the calls, with one stand-in active call when disabling with an SLC up |
| MediaService.BluetoothMedia.SetMemoryCall | system/gd/rust/linux/stack/src/bluetooth_media.rs:2005-2011 | the number is stored exactly while phone ops are enabled |
| MediaService.BluetoothMedia.SetLastCall | system/gd/rust/linux/stack/src/bluetooth_media.rs:2013-2019 | the number is stored exactly while phone ops are enabled |
| MediaService.BluetoothMedia.SetNetworkAvailable | system/gd/rust/linux/stack/src/bluetooth_media.rs:1889-1895 | the flag is stored; only a change is announced |
| MediaService.BluetoothMedia.SetRoaming | system/gd/rust/linux/stack/src/bluetooth_media.rs:1897-1903 | the flag is stored; only a change is announced |
| MediaService.BluetoothMedia.SetSignalStrength | system/gd/rust/linux/stack/src/bluetooth_media.rs:1905-1918 | succeeds exactly for 0 to 5; only a new value is stored and announced |
| MediaService.BluetoothMedia.SetBatteryLevel | system/gd/rust/linux/stack/src/bluetooth_media.rs:1920-1933 | succeeds exactly for 0 to 5; only a new value is stored and announced |
| AdvertiseStats.RunningRecord | android/app/src/com/android/bluetooth/gatt/AppAdvertiseStats.java:68-75 | a new record starts now and has not stopped |
| AdvertiseStats.Trimmed | android/app/src/com/android/bluetooth/gatt/AppAdvertiseStats.java:175-177 | past five records the oldest is dropped; the result is a suffix of the history, at most five long when the history had at most six |
| AdvertiseStats.EnabledRecords | android/app/src/com/android/bluetooth/gatt/AppAdvertiseStats.java:166-184 | the history stays non-empty |
| AdvertiseStats.EnableAppendsNewest | android/app/src/com/android/bluetooth/gatt/AppAdvertiseStats.java:168-178 | after a stopped record, one running record is appended and the oldest is dropped past five |
| AdvertiseStats.EnableBounded | android/app/src/com/android/bluetooth/gatt/AppAdvertiseStats.java:174-176 | a history of at most five records stays at most five |
| AdvertiseStats.DisableStopsLast | android/app/src/com/android/bluetooth/gatt/AppAdvertiseStats.java:179-183 | disabling stops only a running last record; a recorded stop time is never overwritten |
| AdvertiseStats.EnableIdempotent | android/app/src/com/android/bluetooth/gatt/AppAdvertiseStats.java:166-184 | a second call changes nothing more, in either state |
| AdvertiseStats.UpdatedDataAsWritten | android/app/src/com/android/bluetooth/gatt/AppAdvertiseStats.java:186-200 | as written, the update throws exactly when nothing is stored and the argument is null |
| AdvertiseStats.UpdatedData | android/app/src/com/android/bluetooth/gatt/AppAdvertiseStats.java:186-200 | as intended: null keeps the stored summary, otherwise the argument replaces it |
| AdvertiseStats.NullFirstPayloadThrows | android/app/src/com/android/bluetooth/gatt/AppAdvertiseStats.java:187-192 | a null first payload throws as written and is ignored as intended |
| AdvertiseStats.UpdatedDataAgrees | android/app/src/com/android/bluetooth/gatt/AppAdvertiseStats.java:186-200 | wherever the update as written does not throw, it agrees with the intended one |
| AdvertiseStats.AppAdvertiseStats.constructor | android/app/src/com/android/bluetooth/gatt/AppAdvertiseStats.java:78-105 | the given uid, id and name, nothing enabled, default parameters, no records |
| AdvertiseStats.AppAdvertiseStats.RecordAdvertiseStart | android/app/src/com/android/bluetooth/gatt/AppAdvertiseStats.java:107-157 | advertising on, exactly one running record appended, no trimming, each non-null argument replaces its fields |
| AdvertiseStats.AppAdvertiseStats.RecordAdvertiseStop | android/app/src/com/android/bluetooth/gatt/AppAdvertiseStats.java:159-164 | both flags off, only the last record stopped now |
| AdvertiseStats.AppAdvertiseStats.EnableAdvertisingSet | android/app/src/com/android/bluetooth/gatt/AppAdvertiseStats.java:166-184 | the history becomes EnabledRecords under the advertising flag; `enable` is ignored |
| AdvertiseStats.AppAdvertiseStats.SetAdvertisingData | android/app/src/com/android/bluetooth/gatt/AppAdvertiseStats.java:186-200 | throws exactly when nothing is stored and the argument is null, leaving the field alone; otherwise the field becomes what UpdatedDataAsWritten returns |
| AdvertiseStats.AppAdvertiseStats.SetScanResponseData | android/app/src/com/android/bluetooth/gatt/AppAdvertiseStats.java:202-216 | throws exactly when nothing is stored and the argument is null, leaving the field alone; otherwise the field becomes what UpdatedDataAsWritten returns |
| AdvertiseStats.AppAdvertiseStats.SetAdvertisingParameters | android/app/src/com/android/bluetooth/gatt/AppAdvertiseStats.java:218-229 | null leaves every field alone; otherwise all eight fields are replaced |
| AdvertiseStats.AppAdvertiseStats.SetPeriodicAdvertisingParameters | android/app/src/com/android/bluetooth/gatt/AppAdvertiseStats.java:231-236 | null leaves both fields alone; otherwise both are replaced |
| AdvertiseStats.AppAdvertiseStats.SetPeriodicAdvertisingData | android/app/src/com/android/bluetooth/gatt/AppAdvertiseStats.java:238-252 | throws exactly when nothing is stored and the argument is null, leaving the field alone; otherwise the field becomes what UpdatedDataAsWritten returns |
| AdvertiseStats.AppAdvertiseStats.OnPeriodicAdvertiseEnabled | android/app/src/com/android/bluetooth/gatt/AppAdvertiseStats.java:254-256 | the periodic flag becomes the argument |
| AdvertiseStats.AppAdvertiseStats.SetId | android/app/src/com/android/bluetooth/gatt/AppAdvertiseStats.java:258-260 | the id becomes the argument |
| AdvertiseStats.Unsigned | android/app/src/com/android/bluetooth/gatt/AppAdvertiseStats.java:265 | `%x` prints a negative byte as its value plus 256 |
| AdvertiseStats.HexByte | android/app/src/com/android/bluetooth/gatt/AppAdvertiseStats.java:265 | two digits per byte |
| AdvertiseStats.HexOf | android/app/src/com/android/bluetooth/gatt/AppAdvertiseStats.java:262-268 | the text is twice as long as the data |
| AdvertiseStats.HexOfAppend | android/app/src/com/android/bluetooth/gatt/AppAdvertiseStats.java:264-266 | each byte appends its two digits |
| AdvertiseStats.PrintByteArrayInHex | android/app/src/com/android/bluetooth/gatt/AppAdvertiseStats.java:262-268 | the loop yields the hex text of the data |
| AdvertiseStats.ParseHexOf | android/app/src/com/android/bluetooth/gatt/AppAdvertiseStats.java:262-268 | the hex text reads back as the original bytes |
| AdvertiseStats.HexOfParse | android/app/src/com/android/bluetooth/gatt/AppAdvertiseStats.java:262-268 | any text that reads back as bytes is exactly their hex text |
| AdvertiseStats.HexValueDigit | android/app/src/com/android/bluetooth/gatt/AppAdvertiseStats.java:262-268 | a character has a hex value exactly when it is one of the sixteen lower-case digits the formatter writes, and that digit is the one formatted for its value |
| AdvertiseStats.Decimal | android/app/src/com/android/bluetooth/gatt/AppAdvertiseStats.java:300 | Integer.toString of a positive number is a non-empty string of digits |
| AdvertiseStats.ParseDecimalOf | android/app/src/com/android/bluetooth/gatt/AppAdvertiseStats.java:300 | the decimal text reads back as the number |
| AdvertiseStats.DumpPhyString | android/app/src/com/android/bluetooth/gatt/AppAdvertiseStats.java:298-304 | a non-empty string, starting with the L of a PHY name exactly for PHYs 1 to 3 and with a decimal digit otherwise |
| AdvertiseStats.DumpPhyStringReadsBack | android/app/src/com/android/bluetooth/gatt/AppAdvertiseStats.java:298-304 | PHYs 1 to 3 get their LE_ names; larger PHYs print in decimal and read back |
| AdvertiseStats.DumpPhyStringInjective | android/app/src/com/android/bluetooth/gatt/AppAdvertiseStats.java:298-304 | different PHYs print differently |

## Left out

- JSON file reading and `std::stoull`/`std::stoll` text parsing are left out. A text field is modelled by the number it denotes, so a conversion exception is not modelled.
- The constructor's other numeric fields and the legacy keys (`ParseHex64` of `LeSupportedFeatures`, the HCI version, subversions, packet counts, list sizes, vendor codecs) are not modelled. Their readers are the same `ParseUint`/`ParseUintVector` modelled here.
- ControllerConfig.ControllerProperties.Configure: the `le_supported`/`br_supported` flags are parameters, not read from the configuration with default true.
- The numeric opcode indices and feature bit positions come from `hci_packets.pdl`, which is not part of this model. The commands are taken as a list of opcode indices. Feature bit positions are those of the Bluetooth Core Specification, Vol 2, Part C, section 3.3 and Vol 6, Part B, section 4.6.
- ControllerCommands.SampleRows: only seven representative rows of the roughly 350-row command table are modelled. Every row goes through the same `check_command_` macro (`CheckCommandRequirement`), and the rows only log.
- Logging (`LOG_INFO`, `warn!`) is left out.
- ControllerConfig.ControllerProperties.constructor: the default LMP version, codec list and SCO packet length are set where the class is declared, which is not part of this model; they are constructor parameters.
- ControllerConfig.ControllerProperties.constructor: the feature and command checks on the defaults (lines 525-537) only log and are not evaluated; the final feature check is the result of `Configure`.
- MediaService.BluetoothMedia.constructor: the initial telephony status is a parameter; `TelephonyDeviceStatus::new()` is not part of this model.
- BluetoothMedia: the calls into the HFP/A2DP/AVRCP stacks are left out. Notifications are recorded as `effects`; their AT responses are not modelled.
- BluetoothMedia: the callback dispatchers that fill the per-device state tables, the timers and fallback tasks, the removal of an emptied device from `device_states` and `fallback_tasks`, the mutex locking, uinput, metrics and `RawAddress` string parsing are left out.
- MediaService.BluetoothMedia.NewCallIndex: the index is an unbounded integer; the Rust `i32` cannot overflow with fewer than 2^31 calls.
- MediaService.FinalCodecs: the device address is an already-parsed option, not a string.
- AdvertiseStats: clock readings (`SystemClock.elapsedRealtime`) are parameters.
- AdvertiseStats: the `DATE_FORMAT`, `StringBuilder` dump layout and `dumpAppAdvertiserData`/`dumpAppAdvertiseStats`/`dumpToString` are not modelled; only their two formatting helpers are.
- AdvertiseStats: `AdvertiseData` payloads are kept as the summary values `AppAdvertiserData` stores, and `SparseArray`/`ParcelUuid` as maps and strings. The context map and GATT service references are not modelled.
- AdvertiseStats: the records are values in a sequence. Aliasing of a record obtained through `getLast()` is not modelled.
- AdvertiseStats.AppAdvertiseStats.RecordAdvertiseStop: requires a non-empty history. Java throws NoSuchElementException from `getLast()` on an empty list; the exception is not modelled.
- AdvertiseStats.AppAdvertiseStats.EnableAdvertisingSet: requires a non-empty history, for the same `getLast()` reason.
- AdvertiseStats.DumpPhyString: requires a PHY of at least 1. Java throws ArrayIndexOutOfBoundsException for smaller values; the exception is not modelled.
- AdvertiseStats.EnableIdempotent: requires the first clock reading to be non-zero. A record stopped at time 0 reads as still running, so a second disable would stop it again.
- Integer widths: Java `int` and Rust `i32`/`u8` fields are unbounded integers here. Only the 64-bit feature words, octets and `static_cast` range checks are modelled bit-exactly.

## Findings

| source | as written | input that shows it | evidently intended | confidence | as-written member | corrected member |
|---|---|---|---|---|---|---|
| tools/rootcanal/model/controller/controller_properties.cc:1010-1012 | `optional_or_excluded` yields kMandatory when its condition holds | C135 true (SCO link supported) on a controller without the C135 commands | kOptional when the condition holds, as its name and the C135 comment say | high, not executed | ControllerCommands.OptionalOrExcludedAsWrittenRejectsOptionalCommand | ControllerCommands.OptionalOrExcludedNeverRequires |
| tools/rootcanal/model/controller/controller_properties.cc:590 | the key `"sco_data_packet_length "` has a trailing space (as do the six keys after it) | a configuration `{"sco_data_packet_length": "60"}` | the value under `sco_data_packet_length` is read | high, not executed | ControllerConfig.ScoDataPacketLengthKeyIgnored | ControllerConfig.ScoDataPacketLength |
| android/app/src/com/android/bluetooth/gatt/AppAdvertiseStats.java:187-192 | the first `setAdvertisingData` dereferences its argument without a null check (also at 203-208 and 239-244) | `setAdvertisingData(null)` on a fresh object | a null argument leaves the summary alone, as it does once one is stored | medium, not executed | AdvertiseStats.NullFirstPayloadThrows | AdvertiseStats.UpdatedDataAgrees |
