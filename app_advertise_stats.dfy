/**
 * Per-application advertising statistics of the Android GATT service
 * (AppAdvertiseStats.java): the history of advertising start/stop records,
 * the last advertising and periodic advertising parameters and payload
 * summaries an app used, and the two formatting helpers of the dump.
 *
 * Clock readings (SystemClock.elapsedRealtime) are parameters. The Java
 * records are mutable objects in a LinkedList; here the list is a sequence of
 * record values that the methods reassign.
 */
module AdvertiseStats {

  datatype Option<T> = None | Some(value: T)

  /** A Java byte. */
  type JavaByte = b: int | -128 <= b < 128

  type Uuid = string

  /** BluetoothDevice.PHY_LE_1M. */
  const PHY_LE_1M: int := 1

  /** An app keeps at most this many records once it re-enables an advertising set. */
  const MAX_RECORDS: nat := 5

  /** One advertising period; a stop time of 0 means the period is still running. */
  datatype AdvertiserRecord =
    AdvertiserRecord(startTime: int, stopTime: int, duration: int, maxExtendedAdvertisingEvents: int)

  /** The part of an AdvertiseData payload the statistics keep (AppAdvertiserData). */
  datatype AdvertiserData = AdvertiserData(
    includeDeviceName: bool,
    includeTxPowerLevel: bool,
    manufacturerData: map<int, seq<JavaByte>>,
    serviceData: map<Uuid, seq<JavaByte>>,
    serviceUuids: seq<Uuid>)

  /** The fields of AdvertisingSetParameters the statistics keep. */
  datatype AdvertisingParameters = AdvertisingParameters(
    primaryPhy: int,
    secondaryPhy: int,
    interval: int,
    txPowerLevel: int,
    legacy: bool,
    anonymous: bool,
    connectable: bool,
    scannable: bool)

  /** The fields of PeriodicAdvertisingParameters the statistics keep. */
  datatype PeriodicParameters = PeriodicParameters(includeTxPower: bool, interval: int)

  /** The parameters a fresh statistics object reports: both PHYs LE 1M, everything else zero or off. */
  const DEFAULT_PARAMETERS: AdvertisingParameters :=
    AdvertisingParameters(PHY_LE_1M, PHY_LE_1M, 0, 0, false, false, false, false)

  /** The outcome of a Java statement that may throw. */
  datatype Thrown<T> = Returned(value: T) | NullPointerException

  /** A record started at `now` and still running. */
  function RunningRecord(now: int, duration: int, maxExtAdvEvents: int): (r: AdvertiserRecord)
    ensures r.stopTime == 0 && r.startTime == now
  {
    AdvertiserRecord(now, 0, duration, maxExtAdvEvents)
  }

  /** Drops the oldest record when the history has grown past MAX_RECORDS. */
  function Trimmed(records: seq<AdvertiserRecord>): (out: seq<AdvertiserRecord>)
    ensures |out| == if |records| > MAX_RECORDS then |records| - 1 else |records|
    ensures out == records[|records| - |out|..]
    ensures |records| <= MAX_RECORDS + 1 ==> |out| <= MAX_RECORDS
  {
    if |records| > MAX_RECORDS then records[1..] else records
  }

  /**
   * The history after enableAdvertisingSet. While advertising is enabled a new
   * running record is appended (and the oldest dropped past MAX_RECORDS) only
   * if the last record has stopped; while it is disabled a running last record
   * is stopped at `now`.
   */
  function EnabledRecords(records: seq<AdvertiserRecord>, enabled: bool, duration: int, maxExtAdvEvents: int, now: int)
    : (out: seq<AdvertiserRecord>)
    requires |records| > 0
    ensures |out| > 0
  {
    var last := records[|records| - 1];
    if enabled then
      if last.stopTime != 0 then Trimmed(records + [RunningRecord(now, duration, maxExtAdvEvents)])
      else records
    else if last.stopTime == 0 then records[..|records| - 1] + [last.(stopTime := now)]
    else records
  }

  /**
   * Re-enabling while enabled keeps the newest records: the result ends with
   * the new running record, what precedes it is the old history less at most
   * its oldest record, and the history never grows past MAX_RECORDS unless it
   * already was longer.
   */
  lemma EnableAppendsNewest(records: seq<AdvertiserRecord>, duration: int, maxExtAdvEvents: int, now: int)
    requires |records| > 0 && records[|records| - 1].stopTime != 0
    ensures var out := EnabledRecords(records, true, duration, maxExtAdvEvents, now);
      && out[|out| - 1] == RunningRecord(now, duration, maxExtAdvEvents)
      && (out[..|out| - 1] == records || out[..|out| - 1] == records[1..])
      && (|records| < MAX_RECORDS ==> |out| == |records| + 1)
      && (|records| >= MAX_RECORDS ==> |out| == |records|)
  {
    var grown := records + [RunningRecord(now, duration, maxExtAdvEvents)];
    if |grown| > MAX_RECORDS {
      assert grown[1..][..|grown| - 2] == records[1..];
    } else {
      assert grown[..|grown| - 1] == records;
    }
  }

  /** A history of at most MAX_RECORDS records stays within MAX_RECORDS. */
  lemma EnableBounded(records: seq<AdvertiserRecord>, enabled: bool, duration: int, maxExtAdvEvents: int, now: int)
    requires 0 < |records| <= MAX_RECORDS
    ensures |EnabledRecords(records, enabled, duration, maxExtAdvEvents, now)| <= MAX_RECORDS
  {
  }

  /**
   * Disabling stops only a running last record: every earlier record, and a
   * stop time already recorded, is left as it was.
   */
  lemma DisableStopsLast(records: seq<AdvertiserRecord>, duration: int, maxExtAdvEvents: int, now: int)
    requires |records| > 0
    ensures var out := EnabledRecords(records, false, duration, maxExtAdvEvents, now);
      && |out| == |records|
      && out[..|out| - 1] == records[..|records| - 1]
      && out[|out| - 1].stopTime == (if records[|records| - 1].stopTime == 0 then now else records[|records| - 1].stopTime)
      && out[|out| - 1] == records[|records| - 1].(stopTime := out[|out| - 1].stopTime)
  {
  }

  /**
   * enableAdvertisingSet is idempotent: a second call in the same state, with
   * any duration, event count or clock reading, changes nothing more, provided
   * the clock read at the first call was not 0.
   */
  lemma {:induction false} EnableIdempotent(
    records: seq<AdvertiserRecord>, enabled: bool,
    duration: int, maxExtAdvEvents: int, now: int,
    duration2: int, maxExtAdvEvents2: int, now2: int)
    requires |records| > 0 && now != 0
    ensures var once := EnabledRecords(records, enabled, duration, maxExtAdvEvents, now);
      EnabledRecords(once, enabled, duration2, maxExtAdvEvents2, now2) == once
  {
    var once := EnabledRecords(records, enabled, duration, maxExtAdvEvents, now);
    var last := records[|records| - 1];
    if enabled && last.stopTime != 0 {
      EnableAppendsNewest(records, duration, maxExtAdvEvents, now);
      assert once[|once| - 1].stopTime == 0;
    } else if !enabled {
      DisableStopsLast(records, duration, maxExtAdvEvents, now);
      assert once[|once| - 1].stopTime != 0;
    }
  }

  /**
   * A payload update as written: a stored summary is overwritten only by a
   * non-null argument, but a first update dereferences the argument
   * unconditionally, so a null first payload throws.
   */
  function UpdatedDataAsWritten(stored: Option<AdvertiserData>, data: Option<AdvertiserData>)
    : (r: Thrown<Option<AdvertiserData>>)
    ensures stored.None? && data.None? <==> r.NullPointerException?
  {
    if stored.None? then
      if data.None? then NullPointerException else Returned(Some(data.value))
    else if data.Some? then Returned(Some(data.value))
    else Returned(stored)
  }

  /** A payload update as intended: a null argument leaves the stored summary alone. */
  function UpdatedData(stored: Option<AdvertiserData>, data: Option<AdvertiserData>): (r: Option<AdvertiserData>)
    ensures data.None? ==> r == stored
    ensures data.Some? ==> r == data
  {
    if data.Some? then data else stored
  }

  /** The null first payload that makes the update as written throw. */
  lemma NullFirstPayloadThrows()
    ensures UpdatedDataAsWritten(None, None) == NullPointerException
    ensures UpdatedData(None, None) == None
  {
  }

  /** Wherever the update as written does not throw, it agrees with the intended one. */
  lemma UpdatedDataAgrees(stored: Option<AdvertiserData>, data: Option<AdvertiserData>)
    requires !UpdatedDataAsWritten(stored, data).NullPointerException?
    ensures UpdatedDataAsWritten(stored, data) == Returned(UpdatedData(stored, data))
  {
  }

  /** The per-app advertising statistics. */
  class AppAdvertiseStats {
    var appUid: int
    var appName: string
    var id: int
    var advertisingEnabled: bool
    var periodicAdvertisingEnabled: bool
    /** mPrimaryPhy to mScannable, held together. */
    var parameters: AdvertisingParameters
    var advertisingData: Option<AdvertiserData>
    var scanResponseData: Option<AdvertiserData>
    var periodicAdvertisingData: Option<AdvertiserData>
    var periodicIncludeTxPower: bool
    var periodicInterval: int
    var records: seq<AdvertiserRecord>

    constructor (appUid: int, id: int, name: string)
      ensures this.appUid == appUid && this.id == id && appName == name
      ensures !advertisingEnabled && !periodicAdvertisingEnabled
      ensures parameters == DEFAULT_PARAMETERS
      ensures advertisingData == None && scanResponseData == None && periodicAdvertisingData == None
      ensures !periodicIncludeTxPower && periodicInterval == 0
      ensures records == []
    {
      this.appUid := appUid;
      this.id := id;
      appName := name;
      advertisingEnabled := false;
      periodicAdvertisingEnabled := false;
      parameters := DEFAULT_PARAMETERS;
      advertisingData := None;
      scanResponseData := None;
      periodicAdvertisingData := None;
      periodicIncludeTxPower := false;
      periodicInterval := 0;
      records := [];
    }

    /**
     * An advertising set was started at `now`: advertising is on, one running
     * record is appended (the history is never trimmed here), and each
     * non-null argument replaces what it describes; periodic parameters also
     * switch periodic advertising on.
     */
    method RecordAdvertiseStart(
      params: Option<AdvertisingParameters>, advertiseData: Option<AdvertiserData>,
      scanResponse: Option<AdvertiserData>, periodicParams: Option<PeriodicParameters>,
      periodicData: Option<AdvertiserData>, duration: int, maxExtAdvEvents: int, now: int)
      modifies this`advertisingEnabled, this`records, this`parameters, this`advertisingData,
        this`scanResponseData, this`periodicAdvertisingData, this`periodicAdvertisingEnabled,
        this`periodicIncludeTxPower, this`periodicInterval
      ensures advertisingEnabled
      ensures records == old(records) + [RunningRecord(now, duration, maxExtAdvEvents)]
      ensures parameters == if params.Some? then params.value else old(parameters)
      ensures advertisingData == UpdatedData(old(advertisingData), advertiseData)
      ensures scanResponseData == UpdatedData(old(scanResponseData), scanResponse)
      ensures periodicAdvertisingData == UpdatedData(old(periodicAdvertisingData), periodicData)
      ensures periodicParams.Some? ==>
        (periodicAdvertisingEnabled
         && periodicIncludeTxPower == periodicParams.value.includeTxPower
         && periodicInterval == periodicParams.value.interval)
      ensures periodicParams.None? ==>
        (periodicAdvertisingEnabled == old(periodicAdvertisingEnabled)
         && periodicIncludeTxPower == old(periodicIncludeTxPower)
         && periodicInterval == old(periodicInterval))
    {
      advertisingEnabled := true;
      records := records + [AdvertiserRecord(now, 0, duration, maxExtAdvEvents)];
      if params.Some? {
        parameters := params.value;
      }
      if advertiseData.Some? {
        advertisingData := advertiseData;
      }
      if scanResponse.Some? {
        scanResponseData := scanResponse;
      }
      if periodicData.Some? {
        periodicAdvertisingData := periodicData;
      }
      if periodicParams.Some? {
        periodicAdvertisingEnabled := true;
        periodicIncludeTxPower := periodicParams.value.includeTxPower;
        periodicInterval := periodicParams.value.interval;
      }
    }

    /** The advertising set stopped at `now`: both flags go off and only the last record gets a stop time. */
    method RecordAdvertiseStop(now: int)
      requires |records| > 0
      modifies this`advertisingEnabled, this`periodicAdvertisingEnabled, this`records
      ensures !advertisingEnabled && !periodicAdvertisingEnabled
      ensures |records| == |old(records)|
      ensures records[..|records| - 1] == old(records)[..|records| - 1]
      ensures records[|records| - 1] == old(records)[|records| - 1].(stopTime := now)
    {
      advertisingEnabled := false;
      periodicAdvertisingEnabled := false;
      var last := records[|records| - 1];
      records := records[..|records| - 1] + [last.(stopTime := now)];
    }

    /**
     * The advertising set was re-enabled or disabled. The new history depends
     * on the advertising flag, not on `enable`.
     */
    method EnableAdvertisingSet(enable: bool, duration: int, maxExtAdvEvents: int, now: int)
      requires |records| > 0
      modifies this`records
      ensures records == EnabledRecords(old(records), advertisingEnabled, duration, maxExtAdvEvents, now)
    {
      var last := records[|records| - 1];
      if advertisingEnabled {
        if last.stopTime != 0 {
          records := records + [AdvertiserRecord(now, 0, duration, maxExtAdvEvents)];
          if |records| > MAX_RECORDS {
            records := records[1..];
          }
        }
      } else {
        if last.stopTime == 0 {
          records := records[..|records| - 1] + [last.(stopTime := now)];
        }
      }
    }

    /**
     * Stores the advertising payload summary. With nothing stored yet, the argument
     * is dereferenced unconditionally, so a null one throws and `thrown` is
     * true; otherwise the update is the one UpdatedDataAsWritten returns.
     */
    method SetAdvertisingData(data: Option<AdvertiserData>) returns (thrown: bool)
      modifies this`advertisingData
      ensures thrown <==> UpdatedDataAsWritten(old(advertisingData), data).NullPointerException?
      ensures thrown ==> advertisingData == old(advertisingData)
      ensures !thrown ==> UpdatedDataAsWritten(old(advertisingData), data) == Returned(advertisingData)
      ensures advertisingData == UpdatedData(old(advertisingData), data)
    {
      thrown := false;
      if advertisingData.None? {
        if data.None? {
          thrown := true;
          return;
        }
        advertisingData := Some(data.value);
      } else if data.Some? {
        advertisingData := data;
      }
    }

    /**
     * Stores the scan response payload summary. With nothing stored yet, the argument
     * is dereferenced unconditionally, so a null one throws and `thrown` is
     * true; otherwise the update is the one UpdatedDataAsWritten returns.
     */
    method SetScanResponseData(data: Option<AdvertiserData>) returns (thrown: bool)
      modifies this`scanResponseData
      ensures thrown <==> UpdatedDataAsWritten(old(scanResponseData), data).NullPointerException?
      ensures thrown ==> scanResponseData == old(scanResponseData)
      ensures !thrown ==> UpdatedDataAsWritten(old(scanResponseData), data) == Returned(scanResponseData)
      ensures scanResponseData == UpdatedData(old(scanResponseData), data)
    {
      thrown := false;
      if scanResponseData.None? {
        if data.None? {
          thrown := true;
          return;
        }
        scanResponseData := Some(data.value);
      } else if data.Some? {
        scanResponseData := data;
      }
    }

    /**
     * Stores the periodic advertising payload summary. With nothing stored yet, the argument
     * is dereferenced unconditionally, so a null one throws and `thrown` is
     * true; otherwise the update is the one UpdatedDataAsWritten returns.
     */
    method SetPeriodicAdvertisingData(data: Option<AdvertiserData>) returns (thrown: bool)
      modifies this`periodicAdvertisingData
      ensures thrown <==> UpdatedDataAsWritten(old(periodicAdvertisingData), data).NullPointerException?
      ensures thrown ==> periodicAdvertisingData == old(periodicAdvertisingData)
      ensures !thrown ==> UpdatedDataAsWritten(old(periodicAdvertisingData), data) == Returned(periodicAdvertisingData)
      ensures periodicAdvertisingData == UpdatedData(old(periodicAdvertisingData), data)
    {
      thrown := false;
      if periodicAdvertisingData.None? {
        if data.None? {
          thrown := true;
          return;
        }
        periodicAdvertisingData := Some(data.value);
      } else if data.Some? {
        periodicAdvertisingData := data;
      }
    }

    /** Non-null parameters replace all eight kept fields; null leaves them alone. */
    method SetAdvertisingParameters(params: Option<AdvertisingParameters>)
      modifies this`parameters
      ensures params.Some? ==> parameters == params.value
      ensures params.None? ==> parameters == old(parameters)
    {
      if params.Some? {
        parameters := params.value;
      }
    }

    /** Non-null parameters replace the two periodic fields; null leaves them alone. */
    method SetPeriodicAdvertisingParameters(params: Option<PeriodicParameters>)
      modifies this`periodicIncludeTxPower, this`periodicInterval
      ensures params.Some? ==>
        (periodicIncludeTxPower == params.value.includeTxPower && periodicInterval == params.value.interval)
      ensures params.None? ==>
        (periodicIncludeTxPower == old(periodicIncludeTxPower) && periodicInterval == old(periodicInterval))
    {
      if params.Some? {
        periodicIncludeTxPower := params.value.includeTxPower;
        periodicInterval := params.value.interval;
      }
    }

    method OnPeriodicAdvertiseEnabled(enable: bool)
      modifies this`periodicAdvertisingEnabled
      ensures periodicAdvertisingEnabled == enable
    {
      periodicAdvertisingEnabled := enable;
    }

    method SetId(id: int)
      modifies this`id
      ensures this.id == id
    {
      this.id := id;
    }
  }

  /*
   * Formatting helpers of the dump.
   */

  /** The lowercase hex digit of a value below 16 ('0' to '9', then 'a' to 'f'). */
  function HexDigit(k: nat): (c: char)
    requires k < 16
    ensures '0' <= c <= '9' || 'a' <= c <= 'f'
  {
    if k < 10 then ('0' as int + k) as char else ('a' as int + k - 10) as char
  }

  /** The unsigned value of a byte, as %x formats it. */
  function Unsigned(b: JavaByte): (u: nat)
    ensures u < 256
    ensures b >= 0 ==> u == b
    ensures b < 0 ==> u == b + 256
  {
    if b < 0 then b + 256 else b
  }

  /** Two lowercase hex digits of a byte (format "%02x"). */
  function HexByte(b: JavaByte): (s: string)
    ensures |s| == 2
  {
    [HexDigit(Unsigned(b) / 16), HexDigit(Unsigned(b) % 16)]
  }

  /** The hex text of a byte array: two digits per byte, in order. */
  function HexOf(data: seq<JavaByte>): (s: string)
    ensures |s| == 2 * |data|
  {
    if |data| == 0 then [] else HexByte(data[0]) + HexOf(data[1..])
  }

  lemma {:induction false} HexOfAppend(data: seq<JavaByte>, b: JavaByte)
    ensures HexOf(data + [b]) == HexOf(data) + HexByte(b)
  {
    if |data| == 0 {
      assert data + [b] == [b];
    } else {
      assert (data + [b])[1..] == data[1..] + [b];
      HexOfAppend(data[1..], b);
    }
  }

  /** printByteArrayInHex. */
  method PrintByteArrayInHex(data: seq<JavaByte>) returns (hex: string)
    ensures hex == HexOf(data)
  {
    hex := [];
    for i := 0 to |data|
      invariant hex == HexOf(data[..i])
    {
      HexOfAppend(data[..i], data[i]);
      assert data[..i + 1] == data[..i] + [data[i]];
      hex := hex + HexByte(data[i]);
    }
    assert data[..|data|] == data;
  }

  /** The value of a lowercase hex digit. */
  function HexValue(c: char): (v: Option<nat>)
    ensures v.Some? ==> v.value < 16
  {
    if '0' <= c <= '9' then Some(c as int - '0' as int)
    else if 'a' <= c <= 'f' then Some(c as int - 'a' as int + 10)
    else None
  }

  /** A character has a value exactly when it is a hex digit, and the digit of that value is the character. */
  lemma HexValueDigit(c: char)
    ensures HexValue(c).Some? ==> HexDigit(HexValue(c).value) == c
    ensures HexValue(c).None? ==> forall k | 0 <= k < 16 :: HexDigit(k) != c
  {
  }

  /** The signed byte with a given unsigned value. */
  function FromUnsigned(u: nat): (b: JavaByte)
    requires u < 256
    ensures Unsigned(b) == u
  {
    if u >= 128 then u - 256 else u
  }

  /** Reads hex text back: None unless it is pairs of lowercase hex digits. */
  function ParseHex(s: string): (r: Option<seq<JavaByte>>)
  {
    if |s| < 2 then (if |s| == 0 then Some([]) else None)
    else if HexValue(s[0]).None? || HexValue(s[1]).None? || ParseHex(s[2..]).None? then None
    else Some([FromUnsigned(HexValue(s[0]).value * 16 + HexValue(s[1]).value)] + ParseHex(s[2..]).value)
  }

  lemma HexValueOfDigit(k: nat)
    requires k < 16
    ensures HexValue(HexDigit(k)) == Some(k)
  {
  }

  /** Hex text of any byte array reads back as that array. */
  lemma {:induction false} ParseHexOf(data: seq<JavaByte>)
    ensures ParseHex(HexOf(data)) == Some(data)
  {
    if |data| > 0 {
      ParseHexByte(data[0], HexOf(data[1..]));
      ParseHexOf(data[1..]);
      assert [data[0]] + data[1..] == data;
    }
  }

  /** Reading back one byte's digits in front of any text. */
  lemma ParseHexByte(b: JavaByte, t: string)
    ensures ParseHex(HexByte(b) + t)
         == if ParseHex(t).Some? then Some([b] + ParseHex(t).value) else None
  {
    var hi, lo := ByteDigits(b);
    ParseHexPair(hi, lo, t);
  }

  /** The two digit values of a byte, and the byte they rebuild. */
  lemma ByteDigits(b: JavaByte) returns (hi: nat, lo: nat)
    ensures hi < 16 && lo < 16
    ensures HexByte(b) == [HexDigit(hi), HexDigit(lo)]
    ensures FromUnsigned(hi * 16 + lo) == b
  {
    hi, lo := Unsigned(b) / 16, Unsigned(b) % 16;
  }

  /** ParseHex unfolded once on a text starting with two hex digits. */
  lemma ParseHexPair(hi: nat, lo: nat, t: string)
    requires hi < 16 && lo < 16
    ensures ParseHex([HexDigit(hi), HexDigit(lo)] + t)
         == if ParseHex(t).Some? then Some([FromUnsigned(hi * 16 + lo)] + ParseHex(t).value) else None
  {
    var s := [HexDigit(hi), HexDigit(lo)] + t;
    assert s[0] == HexDigit(hi) && s[1] == HexDigit(lo) && s[2..] == t;
    HexValueOfDigit(hi);
    HexValueOfDigit(lo);
  }

  /** The two hex digits of a byte given by its digit values. */
  lemma HexByteOfDigits(hi: nat, lo: nat)
    requires hi < 16 && lo < 16
    ensures HexByte(FromUnsigned(hi * 16 + lo)) == [HexDigit(hi), HexDigit(lo)]
  {
    var u := hi * 16 + lo;
    DivMod16(u, hi, lo);
    assert Unsigned(FromUnsigned(u)) == u;
  }

  lemma DivMod16(u: nat, hi: nat, lo: nat)
    requires lo < 16 && u == hi * 16 + lo
    ensures u / 16 == hi && u % 16 == lo
  {
  }

  /** Whatever text reads back as bytes is exactly the hex text of those bytes. */
  lemma {:induction false} HexOfParse(s: string, data: seq<JavaByte>)
    requires ParseHex(s) == Some(data)
    ensures HexOf(data) == s
  {
    if |s| > 0 {
      var hi, lo := HexValue(s[0]).value, HexValue(s[1]).value;
      HexValueDigit(s[0]);
      HexValueDigit(s[1]);
      var rest := ParseHex(s[2..]).value;
      assert data == [FromUnsigned(hi * 16 + lo)] + rest;
      HexOfParse(s[2..], rest);
      assert data[1..] == rest;
      HexByteOfDigits(hi, lo);
      assert HexOf(data) == [s[0], s[1]] + s[2..];
    }
  }

  const PHY_LE_STRINGS: seq<string> := ["LE_1M", "LE_2M", "LE_CODED"]

  /**
   * The decimal digits of a natural number (Integer.toString). Below ten,
   * HexDigit is the decimal digit, so it serves for both bases.
   */
  function Decimal(n: nat): (s: string)
    ensures |s| > 0
    ensures forall i :: 0 <= i < |s| ==> '0' <= s[i] <= '9'
  {
    if n < 10 then [HexDigit(n)] else Decimal(n / 10) + [HexDigit(n % 10)]
  }

  /** Reads decimal digits back. */
  function ParseDecimal(s: string): (n: nat)
  {
    if |s| == 0 then 0
    else ParseDecimal(s[..|s| - 1]) * 10 + (if '0' <= s[|s| - 1] <= '9' then s[|s| - 1] as int - '0' as int else 0)
  }

  lemma DecimalDigitValue(k: nat)
    requires k < 10
    ensures '0' <= HexDigit(k) <= '9' && HexDigit(k) as int - '0' as int == k
  {
  }

  lemma {:induction false} ParseDecimalOf(n: nat)
    ensures ParseDecimal(Decimal(n)) == n
  {
    var s := Decimal(n);
    DecimalDigitValue(n % 10);
    if n < 10 {
      assert s[..0] == [];
    } else {
      assert s[..|s| - 1] == Decimal(n / 10);
      ParseDecimalOf(n / 10);
    }
  }

  /**
   * dumpPhyString: PHYs 1 to 3 by name, larger values in decimal. A PHY of 0
   * or below indexes the name table out of bounds.
   */
  function DumpPhyString(phy: int): (s: string)
    requires phy >= 1
    ensures |s| > 0
    ensures phy <= |PHY_LE_STRINGS| <==> s[0] == 'L'
  {
    if phy > |PHY_LE_STRINGS| then Decimal(phy) else PHY_LE_STRINGS[phy - 1]
  }

  /** Names for the known PHYs, decimal digits that read back as the PHY otherwise. */
  lemma DumpPhyStringReadsBack(phy: int)
    requires phy >= 1
    ensures phy > 3 ==> ParseDecimal(DumpPhyString(phy)) == phy
    ensures phy <= 3 ==> DumpPhyString(phy)[..3] == "LE_"
  {
    if phy > 3 {
      ParseDecimalOf(phy);
    }
  }

  /** Different PHYs are printed differently. */
  lemma DumpPhyStringInjective(p: int, q: int)
    requires p >= 1 && q >= 1
    requires DumpPhyString(p) == DumpPhyString(q)
    ensures p == q
  {
    DumpPhyStringReadsBack(p);
    DumpPhyStringReadsBack(q);
  }
}
