/**
 * The telephony and profile-state part of the Floss BluetoothMedia service
 * (bluetooth_media.rs): the call handlers behind the HFP call-hold and
 * answer/hang-up commands, the telephony status setters, the connected
 * profile table, and the per-profile connection state summaries.
 *
 * Calls into the HFP and A2DP stacks are recorded as effects; the callback
 * dispatchers that fill the per-device state tables are not part of this model.
 */
module MediaService {
  import opened MediaCalls

  datatype Option<T> = None | Some(value: T)

  datatype RawAddress = RawAddress(octets: seq<bv8>)

  /** The profiles the connected-profile table records. */
  datatype Profile = A2dpSink | A2dpSource | Hfp | HfpAg | AvrcpController | AvrcpTarget | OtherProfile(uuid: nat)

  datatype TelephonyDeviceStatus =
    TelephonyDeviceStatus(networkAvailable: bool, roaming: bool, signalStrength: int, batteryLevel: int)

  /** The notifications the service sends out. */
  datatype MediaEffect =
    | PhoneStateChanged(phone: PhoneState, number: string)
    | DeviceStatusChanged(status: TelephonyDeviceStatus)
    | MediaCapabilityUpdated(addr: RawAddress)
    | CriticalProfileDisconnected(addr: RawAddress)

  /** BthfConnectionState. */
  datatype HfpConnectionState = HfpDisconnected | HfpConnecting | HfpConnected | HfpSlcConnected | HfpDisconnecting

  /** BthfAudioState. */
  datatype HfpAudioState = HfpAudioDisconnected | HfpAudioConnecting | HfpAudioConnected | HfpAudioDisconnecting

  /** BtavConnectionState. */
  datatype A2dpConnectionState = A2dpDisconnected | A2dpConnecting | A2dpConnected | A2dpDisconnecting

  /** BtavAudioState. */
  datatype A2dpAudioState = RemoteSuspend | Stopped | Started

  /** ProfileConnectionState, in increasing order. */
  datatype ProfileConnectionState =
    ProfileDisconnected | ProfileDisconnecting | ProfileConnecting | ProfileConnected | ProfileActive

  function Rank(p: ProfileConnectionState): nat
  {
    match p
    case ProfileDisconnected => 0
    case ProfileDisconnecting => 1
    case ProfileConnecting => 2
    case ProfileConnected => 3
    case ProfileActive => 4
  }

  /** What one HFP device contributes: an SLC counts as connected, Connecting and Connected as connecting. */
  function HfpContribution(s: HfpConnectionState): ProfileConnectionState
  {
    match s
    case HfpSlcConnected => ProfileConnected
    case HfpConnecting | HfpConnected => ProfileConnecting
    case HfpDisconnecting => ProfileDisconnecting
    case HfpDisconnected => ProfileDisconnected
  }

  function A2dpContribution(s: A2dpConnectionState): ProfileConnectionState
  {
    match s
    case A2dpConnected => ProfileConnected
    case A2dpConnecting => ProfileConnecting
    case A2dpDisconnecting => ProfileDisconnecting
    case A2dpDisconnected => ProfileDisconnected
  }

  /** The highest of a set of states, Disconnected when the set is empty. */
  predicate IsHighest(r: ProfileConnectionState, states: set<ProfileConnectionState>)
  {
    (r == ProfileDisconnected || r in states) && forall x | x in states :: Rank(x) <= Rank(r)
  }

  /** The highest state is unique, whatever order the states are visited in. */
  lemma HighestUnique(r: ProfileConnectionState, r': ProfileConnectionState, states: set<ProfileConnectionState>)
    requires IsHighest(r, states) && IsHighest(r', states)
    ensures r == r'
  {
  }

  /** HfpCodecCapability bits. */
  const HFP_CODEC_CVSD: bv8 := 0x1
  const HFP_CODEC_MSBC: bv8 := 0x2

  /** The codec get_hfp_audio_final_codecs reports: 2 for mSBC, 1 for CVSD, 0 without audio. */
  function FinalCodecs(address: Option<RawAddress>, audio: map<RawAddress, HfpAudioState>,
                       caps: map<RawAddress, bv8>): (codec: nat)
    ensures codec <= 2
    ensures codec != 0 <==> address.Some? && address.value in audio && audio[address.value] == HfpAudioConnected
    ensures codec == 2 <==> codec != 0 && address.value in caps && caps[address.value] & HFP_CODEC_MSBC == HFP_CODEC_MSBC
  {
    match address
    case None => 0
    case Some(addr) =>
      if addr in audio && audio[addr] == HfpAudioConnected then
        if addr in caps && caps[addr] & HFP_CODEC_MSBC == HFP_CODEC_MSBC then 2
        else if addr in caps && caps[addr] & HFP_CODEC_CVSD == HFP_CODEC_CVSD then 1
        else 1
      else 0
  }

  /** The connected-profile table after recording a profile as connected. */
  function WithProfile(table: map<RawAddress, set<Profile>>, addr: RawAddress, profile: Profile): map<RawAddress, set<Profile>>
  {
    table[addr := (if addr in table then table[addr] else {}) + {profile}]
  }

  /** No device is listed with an empty set of connected profiles. */
  predicate NoEmptyEntries(table: map<RawAddress, set<Profile>>)
  {
    forall a | a in table :: table[a] != {}
  }

  /**
   * The connected-profile table after recording a profile as disconnected;
   * a device left with no profile is removed from the table, as the cleanup
   * of notify_media_capability_updated does.
   */
  function WithoutProfile(table: map<RawAddress, set<Profile>>, addr: RawAddress, profile: Profile)
    : (r: map<RawAddress, set<Profile>>)
    ensures NoEmptyEntries(table) ==> NoEmptyEntries(r)
    ensures addr in r <==> addr in table && table[addr] - {profile} != {}
    ensures addr in r ==> r[addr] == table[addr] - {profile}
    ensures forall a | a != addr :: (a in r <==> a in table) && (a in r ==> r[a] == table[a])
  {
    var rest := (if addr in table then table[addr] else {}) - {profile};
    if rest == {} then table - {addr} else table[addr := rest]
  }

  /**
   * Connecting a profile that was not connected and disconnecting it again
   * leaves the table exactly as it was.
   */
  lemma WithoutProfileUndoesWithProfile(table: map<RawAddress, set<Profile>>, addr: RawAddress, profile: Profile)
    requires NoEmptyEntries(table)
    requires addr !in table || profile !in table[addr]
    ensures WithoutProfile(WithProfile(table, addr, profile), addr, profile) == table
  {
    var before := if addr in table then table[addr] else {};
    assert (before + {profile}) - {profile} == before;
    if addr in table {
      assert table[addr := before] == table;
    } else {
      assert WithProfile(table, addr, profile) - {addr} == table;
    }
  }

  /** Some hands-free device has its service level connection up. */
  predicate AnySlcConnected(hfpStates: map<RawAddress, HfpConnectionState>)
  {
    exists addr | addr in hfpStates :: hfpStates[addr] == HfpSlcConnected
  }

  class BluetoothMedia {
    var callList: seq<CallInfo>
    var phoneState: PhoneState
    var phoneOpsEnabled: bool
    var memoryDialingNumber: Option<string>
    var lastDialingNumber: Option<string>
    var telephonyDeviceStatus: TelephonyDeviceStatus
    var hfpStates: map<RawAddress, HfpConnectionState>
    var hfpAudioState: map<RawAddress, HfpAudioState>
    var a2dpStates: map<RawAddress, A2dpConnectionState>
    var a2dpAudioState: map<RawAddress, A2dpAudioState>
    var hfpCap: map<RawAddress, bv8>
    var connectedProfiles: map<RawAddress, set<Profile>>
    /** The notifications sent so far, oldest first. */
    var effects: seq<MediaEffect>

    ghost predicate Valid()
      reads this
    {
      CallsConsistent(callList, phoneState) && NoEmptyEntries(connectedProfiles)
    }

    constructor(status: TelephonyDeviceStatus)
      ensures Valid()
      ensures callList == [] && phoneState == PhoneState(0, 0, Idle) && !phoneOpsEnabled
      ensures memoryDialingNumber == None && lastDialingNumber == None
      ensures telephonyDeviceStatus == status
      ensures hfpStates == map[] && hfpAudioState == map[] && a2dpStates == map[] && a2dpAudioState == map[]
      ensures hfpCap == map[] && connectedProfiles == map[] && effects == []
    {
      callList := [];
      phoneState := PhoneState(0, 0, Idle);
      phoneOpsEnabled := false;
      memoryDialingNumber := None;
      lastDialingNumber := None;
      telephonyDeviceStatus := status;
      hfpStates := map[];
      hfpAudioState := map[];
      a2dpStates := map[];
      a2dpAudioState := map[];
      hfpCap := map[];
      connectedProfiles := map[];
      effects := [];
    }

    predicate IsProfileConnected(addr: RawAddress, profile: Profile)
      reads this
    {
      addr in connectedProfiles && profile in connectedProfiles[addr]
    }

    /** add_connected_profile: a profile not yet connected is recorded and announced. */
    method AddConnectedProfile(addr: RawAddress, profile: Profile)
      requires Valid()
      modifies this`connectedProfiles, this`effects
      ensures Valid()
      ensures IsProfileConnected(addr, profile)
      ensures old(IsProfileConnected(addr, profile)) ==>
                connectedProfiles == old(connectedProfiles) && effects == old(effects)
      ensures !old(IsProfileConnected(addr, profile)) ==>
                connectedProfiles == WithProfile(old(connectedProfiles), addr, profile)
                && effects == old(effects) + [MediaCapabilityUpdated(addr)]
    {
      if IsProfileConnected(addr, profile) {
        return;
      }
      connectedProfiles := WithProfile(connectedProfiles, addr, profile);
      effects := effects + [MediaCapabilityUpdated(addr)];
    }

    /**
     * rm_connected_profile: a connected profile is removed and announced,
     * preceded by a critical-disconnection notice when asked for.
     */
    method RmConnectedProfile(addr: RawAddress, profile: Profile, isProfileCritical: bool)
      requires Valid()
      modifies this`connectedProfiles, this`effects
      ensures Valid()
      ensures !IsProfileConnected(addr, profile)
      ensures !old(IsProfileConnected(addr, profile)) ==>
                connectedProfiles == old(connectedProfiles) && effects == old(effects)
      ensures old(IsProfileConnected(addr, profile)) ==>
                connectedProfiles == WithoutProfile(old(connectedProfiles), addr, profile)
                && effects == old(effects)
                   + (if isProfileCritical then [CriticalProfileDisconnected(addr)] else [])
                   + [MediaCapabilityUpdated(addr)]
    {
      if !IsProfileConnected(addr, profile) {
        return;
      }
      connectedProfiles := WithoutProfile(connectedProfiles, addr, profile);
      if isProfileCritical {
        effects := effects + [CriticalProfileDisconnected(addr)];
      }
      effects := effects + [MediaCapabilityUpdated(addr)];
    }

    /** get_hfp_connection_state: Active with HFP audio up, otherwise the highest device state. */
    method GetHfpConnectionState() returns (r: ProfileConnectionState)
      ensures r == ProfileActive <==> exists a | a in hfpAudioState :: hfpAudioState[a] == HfpAudioConnected
      ensures r != ProfileActive ==> IsHighest(r, set a | a in hfpStates :: HfpContribution(hfpStates[a]))
    {
      if exists a | a in hfpAudioState :: hfpAudioState[a] == HfpAudioConnected {
        return ProfileActive;
      }
      var winning := ProfileDisconnected;
      var remaining := hfpStates.Keys;
      while remaining != {}
        invariant remaining <= hfpStates.Keys
        invariant winning != ProfileActive
        invariant IsHighest(winning, set a | a in hfpStates && a !in remaining :: HfpContribution(hfpStates[a]))
        decreases |remaining|
      {
        var addr :| addr in remaining;
        ghost var seen := set a | a in hfpStates && a !in remaining :: HfpContribution(hfpStates[a]);
        match hfpStates[addr] {
          case HfpSlcConnected =>
            winning := ProfileConnected;
          case HfpConnecting | HfpConnected =>
            if winning != ProfileConnected {
              winning := ProfileConnecting;
            }
          case HfpDisconnecting =>
            if winning == ProfileDisconnected {
              winning := ProfileDisconnecting;
            }
          case HfpDisconnected =>
        }
        remaining := remaining - {addr};
        assert (set a | a in hfpStates && a !in remaining :: HfpContribution(hfpStates[a]))
            == seen + {HfpContribution(hfpStates[addr])};
      }
      assert (set a | a in hfpStates && a !in remaining :: HfpContribution(hfpStates[a]))
          == (set a | a in hfpStates :: HfpContribution(hfpStates[a]));
      return winning;
    }

    /** get_a2dp_connection_state: Active while streaming, otherwise the highest device state. */
    method GetA2dpConnectionState() returns (r: ProfileConnectionState)
      ensures r == ProfileActive <==> exists a | a in a2dpAudioState :: a2dpAudioState[a] == Started
      ensures r != ProfileActive ==> IsHighest(r, set a | a in a2dpStates :: A2dpContribution(a2dpStates[a]))
    {
      if exists a | a in a2dpAudioState :: a2dpAudioState[a] == Started {
        return ProfileActive;
      }
      var winning := ProfileDisconnected;
      var remaining := a2dpStates.Keys;
      while remaining != {}
        invariant remaining <= a2dpStates.Keys
        invariant winning != ProfileActive
        invariant IsHighest(winning, set a | a in a2dpStates && a !in remaining :: A2dpContribution(a2dpStates[a]))
        decreases |remaining|
      {
        var addr :| addr in remaining;
        ghost var seen := set a | a in a2dpStates && a !in remaining :: A2dpContribution(a2dpStates[a]);
        match a2dpStates[addr] {
          case A2dpConnected =>
            winning := ProfileConnected;
          case A2dpConnecting =>
            if winning != ProfileConnected {
              winning := ProfileConnecting;
            }
          case A2dpDisconnecting =>
            if winning == ProfileDisconnected {
              winning := ProfileDisconnecting;
            }
          case A2dpDisconnected =>
        }
        remaining := remaining - {addr};
        assert (set a | a in a2dpStates && a !in remaining :: A2dpContribution(a2dpStates[a]))
            == seen + {A2dpContribution(a2dpStates[addr])};
      }
      assert (set a | a in a2dpStates && a !in remaining :: A2dpContribution(a2dpStates[a]))
          == (set a | a in a2dpStates :: A2dpContribution(a2dpStates[a]));
      return winning;
    }

    /** new_call_index: the least positive index no call in the list uses. */
    method NewCallIndex() returns (index: int)
      ensures IsLeastFreeIndex(callList, index)
    {
      index := 1;
      while IndexUsed(callList, index)
        invariant index >= 1
        invariant forall j | 1 <= j < index :: IndexUsed(callList, j)
        decreases |callList| + 1 - index
      {
        UsedIndicesBound(callList, index);
        index := index + 1;
      }
    }

    /** incoming_call: only with phone operations enabled, no call pending and none active. */
    method IncomingCall(number: string) returns (ok: bool)
      requires Valid()
      modifies this`callList, this`phoneState, this`effects
      ensures Valid()
      ensures ok <==> old(phoneOpsEnabled && phoneState.state == Idle && phoneState.numActive == 0)
      ensures !ok ==> callList == old(callList) && phoneState == old(phoneState) && effects == old(effects)
      ensures ok ==>
                var n := |old(callList)|;
                && |callList| == n + 1 && callList[..n] == old(callList)
                && callList[n] == CallInfo(callList[n].index, true, Incoming, number)
                && IsLeastFreeIndex(old(callList), callList[n].index)
                && phoneState == old(phoneState).(state := Incoming)
                && effects == old(effects) + [PhoneStateChanged(phoneState, number)]
    {
      if !phoneOpsEnabled || phoneState.state != Idle || phoneState.numActive > 0 {
        return false;
      }
      var index := NewCallIndex();
      var call := CallInfo(index, true, Incoming, number);
      AppendConsistent(callList, phoneState, call);
      callList := callList + [call];
      phoneState := phoneState.(state := Incoming);
      effects := effects + [PhoneStateChanged(phoneState, number)];
      return true;
    }

    /** dialing_call: like an incoming call, but outgoing and in the Dialing state. */
    method DialingCall(number: string) returns (ok: bool)
      requires Valid()
      modifies this`callList, this`phoneState, this`effects
      ensures Valid()
      ensures ok <==> old(phoneOpsEnabled && phoneState.state == Idle && phoneState.numActive == 0)
      ensures !ok ==> callList == old(callList) && phoneState == old(phoneState) && effects == old(effects)
      ensures ok ==>
                var n := |old(callList)|;
                && |callList| == n + 1 && callList[..n] == old(callList)
                && callList[n] == CallInfo(callList[n].index, false, Dialing, number)
                && IsLeastFreeIndex(old(callList), callList[n].index)
                && phoneState == old(phoneState).(state := Dialing)
                && effects == old(effects) + [PhoneStateChanged(phoneState, "")]
    {
      if !phoneOpsEnabled || phoneState.state != Idle || phoneState.numActive > 0 {
        return false;
      }
      var index := NewCallIndex();
      var call := CallInfo(index, false, Dialing, number);
      AppendConsistent(callList, phoneState, call);
      callList := callList + [call];
      phoneState := phoneState.(state := Dialing);
      effects := effects + [PhoneStateChanged(phoneState, "")];
      return true;
    }

    /** answer_call: the waiting incoming or dialing call becomes active. */
    method AnswerCall() returns (ok: bool)
      requires Valid()
      modifies this`callList, this`phoneState, this`effects
      ensures Valid()
      ensures ok <==> old(phoneOpsEnabled && phoneState.state != Idle)
      ensures !ok ==> callList == old(callList) && phoneState == old(phoneState) && effects == old(effects)
      ensures ok ==>
                && callList == ActivateFirst(old(callList), {Incoming, Dialing})
                && phoneState == PhoneState(old(phoneState.numActive) + 1, old(phoneState.numHeld), Idle)
                && phoneState.numActive == 1
                && effects == old(effects) + [PhoneStateChanged(phoneState, "")]
    {
      if !phoneOpsEnabled || phoneState.state == Idle {
        return false;
      }
      ghost var calls := callList;
      ghost var k := FirstWith(calls, {Incoming, Dialing});
      AnswerConsistent(calls, phoneState);
      var i := 0;
      while i < |callList|
        invariant 0 <= i <= k
        invariant callList == calls
      {
        if callList[i].state == Incoming || callList[i].state == Dialing {
          callList := callList[i := callList[i].(state := Active)];
          break;
        }
        i := i + 1;
      }
      phoneState := phoneState.(state := Idle, numActive := phoneState.numActive + 1);
      effects := effects + [PhoneStateChanged(phoneState, "")];
      return true;
    }

    /**
     * hangup_call: ends the active call (when idle) or the waiting one; the
     * list then keeps only the held calls, in order.
     */
    method HangupCall() returns (ok: bool)
      requires Valid()
      modifies this`callList, this`phoneState, this`effects
      ensures Valid()
      ensures ok <==> old(phoneOpsEnabled
                          && ((phoneState.state == Idle && phoneState.numActive > 0)
                              || phoneState.state == Incoming || phoneState.state == Dialing))
      ensures !ok ==> callList == old(callList) && phoneState == old(phoneState) && effects == old(effects)
      ensures ok ==>
                && callList == Without(old(callList), {Active, Incoming, Dialing})
                && (forall k | 0 <= k < |callList| :: callList[k].state == Held)
                && phoneState == PhoneState(0, old(phoneState.numHeld), Idle)
                && effects == old(effects) + [PhoneStateChanged(phoneState, "")]
    {
      if !phoneOpsEnabled {
        return false;
      }
      ghost var calls, phone := callList, phoneState;
      if phoneState.state == Idle && phoneState.numActive > 0 {
        phoneState := phoneState.(numActive := phoneState.numActive - 1);
      } else if phoneState.state == Incoming || phoneState.state == Dialing {
        phoneState := phoneState.(state := Idle);
      } else {
        return false;
      }
      HangupConsistent(calls, phone);
      assert phoneState == PhoneState(0, phone.numHeld, Idle);
      callList := Retain(callList, {Active, Incoming, Dialing});
      effects := effects + [PhoneStateChanged(phoneState, "")];
      return true;
    }

    /** release_held (CHLD=0): drops every held call. */
    method ReleaseHeld() returns (ok: bool)
      requires Valid()
      modifies this`callList, this`phoneState, this`effects
      ensures Valid()
      ensures ok <==> old(phoneOpsEnabled && phoneState.state == Idle)
      ensures !ok ==> callList == old(callList) && phoneState == old(phoneState) && effects == old(effects)
      ensures ok ==>
                && callList == Without(old(callList), {Held})
                && phoneState == old(phoneState).(numHeld := 0)
                && effects == old(effects) + [PhoneStateChanged(phoneState, "")]
    {
      if !phoneOpsEnabled || phoneState.state != Idle {
        return false;
      }
      ghost var calls, phone := callList, phoneState;
      callList := Retain(callList, {Held});
      phoneState := phoneState.(numHeld := 0);
      assert phoneState == PhoneState(phone.numActive, 0, Idle);
      ReleaseHeldConsistent(calls, phone);
      effects := effects + [PhoneStateChanged(phoneState, "")];
      return true;
    }

    /** release_active_accept_held (CHLD=1): drops the active call and resumes the first held one. */
    method ReleaseActiveAcceptHeld() returns (ok: bool)
      requires Valid()
      modifies this`callList, this`phoneState, this`effects
      ensures Valid()
      ensures ok <==> old(phoneOpsEnabled && phoneState.state == Idle)
      ensures !ok ==> callList == old(callList) && phoneState == old(phoneState) && effects == old(effects)
      ensures ok ==>
                && callList == ActivateFirst(Without(old(callList), {Active}), {Held})
                && phoneState.numActive + phoneState.numHeld == old(phoneState.numHeld)
                && phoneState.numActive == (if old(phoneState.numHeld) > 0 then 1 else 0)
                && phoneState.state == Idle
                && effects == old(effects) + [PhoneStateChanged(phoneState, "")]
    {
      if !phoneOpsEnabled || phoneState.state != Idle {
        return false;
      }
      ReleaseActiveAcceptHeldConsistent(callList, phoneState);
      var kept := Retain(callList, {Active});
      callList, phoneState := ResumeFirstHeld(kept, phoneState.(numActive := 0));
      effects := effects + [PhoneStateChanged(phoneState, "")];
      return true;
    }

    /**
     * hold_active_accept_held (CHLD=2): every active call is put on hold and
     * the first call that was held becomes the one active call.
     */
    method HoldActiveAcceptHeld() returns (ok: bool)
      requires Valid()
      modifies this`callList, this`phoneState, this`effects
      ensures Valid()
      ensures ok <==> old(phoneOpsEnabled && phoneState.state == Idle)
      ensures !ok ==> callList == old(callList) && phoneState == old(phoneState) && effects == old(effects)
      ensures ok ==>
                && callList == HoldSwap(old(callList))
                && phoneState.numActive + phoneState.numHeld == old(phoneState.numActive + phoneState.numHeld)
                && phoneState.numActive == (if old(phoneState.numHeld) > 0 then 1 else 0)
                && phoneState.state == Idle
                && effects == old(effects) + [PhoneStateChanged(phoneState, "")]
    {
      if !phoneOpsEnabled || phoneState.state != Idle {
        return false;
      }
      HoldSwapConsistent(callList, phoneState);
      var phone := phoneState.(numHeld := phoneState.numHeld + phoneState.numActive);
      phone := phone.(numActive := 0);
      callList, phoneState := SwapActiveAndHeld(callList, phone);
      effects := effects + [PhoneStateChanged(phoneState, "")];
      return true;
    }

    /**
     * set_phone_ops_enabled: a change of setting clears the call state; when
     * turning phone operations off with a hands-free device on an SLC, one
     * active call stands in for the phone's own calls.
     */
    method SetPhoneOpsEnabled(enable: bool)
      requires Valid()
      modifies this`callList, this`phoneState, this`effects, this`phoneOpsEnabled,
               this`memoryDialingNumber, this`lastDialingNumber
      ensures Valid()
      ensures phoneOpsEnabled == enable
      ensures old(phoneOpsEnabled) == enable ==>
                callList == old(callList) && phoneState == old(phoneState) && effects == old(effects)
                && memoryDialingNumber == old(memoryDialingNumber) && lastDialingNumber == old(lastDialingNumber)
      ensures old(phoneOpsEnabled) != enable ==>
                var standIn := !enable && AnySlcConnected(hfpStates);
                && callList == (if standIn then [CallInfo(1, false, Active, "")] else [])
                && phoneState == PhoneState(if standIn then 1 else 0, 0, Idle)
                && memoryDialingNumber == None && lastDialingNumber == None
                && effects == old(effects) + [PhoneStateChanged(phoneState, "")]
    {
      if phoneOpsEnabled == enable {
        return;
      }
      var standIn := !enable && AnySlcConnected(hfpStates);
      ResetConsistent(standIn);
      callList := if standIn then [CallInfo(1, false, Active, "")] else [];
      phoneState := PhoneState(if standIn then 1 else 0, 0, Idle);
      memoryDialingNumber := None;
      lastDialingNumber := None;
      phoneOpsEnabled := enable;
      effects := effects + [PhoneStateChanged(phoneState, "")];
    }

    /** set_memory_call: stores the number only while phone operations are enabled. */
    method SetMemoryCall(number: Option<string>) returns (ok: bool)
      requires Valid()
      modifies this`memoryDialingNumber
      ensures Valid()
      ensures ok == phoneOpsEnabled
      ensures memoryDialingNumber == if ok then number else old(memoryDialingNumber)
      ensures callList == old(callList) && phoneState == old(phoneState) && effects == old(effects)
    {
      if !phoneOpsEnabled {
        return false;
      }
      memoryDialingNumber := number;
      return true;
    }

    /** set_last_call: stores the number only while phone operations are enabled. */
    method SetLastCall(number: Option<string>) returns (ok: bool)
      requires Valid()
      modifies this`lastDialingNumber
      ensures Valid()
      ensures ok == phoneOpsEnabled
      ensures lastDialingNumber == if ok then number else old(lastDialingNumber)
      ensures callList == old(callList) && phoneState == old(phoneState) && effects == old(effects)
    {
      if !phoneOpsEnabled {
        return false;
      }
      lastDialingNumber := number;
      return true;
    }

    /** set_network_available: a changed value is stored and announced; the same value is ignored. */
    method SetNetworkAvailable(networkAvailable: bool)
      modifies this`telephonyDeviceStatus, this`effects
      ensures telephonyDeviceStatus == old(telephonyDeviceStatus).(networkAvailable := networkAvailable)
      ensures effects == if old(telephonyDeviceStatus.networkAvailable) != networkAvailable
                         then old(effects) + [DeviceStatusChanged(telephonyDeviceStatus)]
                         else old(effects)
    {
      if telephonyDeviceStatus.networkAvailable == networkAvailable {
        return;
      }
      telephonyDeviceStatus := telephonyDeviceStatus.(networkAvailable := networkAvailable);
      effects := effects + [DeviceStatusChanged(telephonyDeviceStatus)];
    }

    /** set_roaming: a changed value is stored and announced; the same value is ignored. */
    method SetRoaming(roaming: bool)
      modifies this`telephonyDeviceStatus, this`effects
      ensures telephonyDeviceStatus == old(telephonyDeviceStatus).(roaming := roaming)
      ensures effects == if old(telephonyDeviceStatus.roaming) != roaming
                         then old(effects) + [DeviceStatusChanged(telephonyDeviceStatus)]
                         else old(effects)
    {
      if telephonyDeviceStatus.roaming == roaming {
        return;
      }
      telephonyDeviceStatus := telephonyDeviceStatus.(roaming := roaming);
      effects := effects + [DeviceStatusChanged(telephonyDeviceStatus)];
    }

    /** set_signal_strength: 0 to 5 only; a new value is announced to the devices. */
    method SetSignalStrength(signalStrength: int) returns (ok: bool)
      modifies this`telephonyDeviceStatus, this`effects
      ensures ok <==> 0 <= signalStrength <= 5
      ensures telephonyDeviceStatus == if ok then old(telephonyDeviceStatus).(signalStrength := signalStrength)
                                       else old(telephonyDeviceStatus)
      ensures effects == if ok && old(telephonyDeviceStatus.signalStrength) != signalStrength
                         then old(effects) + [DeviceStatusChanged(telephonyDeviceStatus)]
                         else old(effects)
    {
      if signalStrength < 0 || signalStrength > 5 {
        return false;
      }
      if telephonyDeviceStatus.signalStrength == signalStrength {
        return true;
      }
      telephonyDeviceStatus := telephonyDeviceStatus.(signalStrength := signalStrength);
      effects := effects + [DeviceStatusChanged(telephonyDeviceStatus)];
      return true;
    }

    /** set_battery_level: 0 to 5 only; a new value is announced to the devices. */
    method SetBatteryLevel(batteryLevel: int) returns (ok: bool)
      modifies this`telephonyDeviceStatus, this`effects
      ensures ok <==> 0 <= batteryLevel <= 5
      ensures telephonyDeviceStatus == if ok then old(telephonyDeviceStatus).(batteryLevel := batteryLevel)
                                       else old(telephonyDeviceStatus)
      ensures effects == if ok && old(telephonyDeviceStatus.batteryLevel) != batteryLevel
                         then old(effects) + [DeviceStatusChanged(telephonyDeviceStatus)]
                         else old(effects)
    {
      if batteryLevel < 0 || batteryLevel > 5 {
        return false;
      }
      if telephonyDeviceStatus.batteryLevel == batteryLevel {
        return true;
      }
      telephonyDeviceStatus := telephonyDeviceStatus.(batteryLevel := batteryLevel);
      effects := effects + [DeviceStatusChanged(telephonyDeviceStatus)];
      return true;
    }
  }
}
