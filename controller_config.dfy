/**
 * The configuration half of the RootCanal ControllerProperties constructor:
 * the range-checked readers ParseUint, ParseUintArray and ParseUintVector,
 * and the transport flags that take precedence over the LMP page 0 bits.
 *
 * A configuration file is a JSON object; a field holding a number written as
 * text is modelled by the number it denotes.
 */
module ControllerConfig {
  import opened ControllerFeatures
  import opened ControllerFeatureCheck
  import opened ControllerCommands

  /** The values `std::stoull` can produce. */
  type U64 = n: nat | n < 0x1_0000_0000_0000_0000

  const UINT8_MAX: nat := 0xff
  const UINT64_MAX: nat := 0xffff_ffff_ffff_ffff

  /** A JSON value, as far as the readers distinguish it. */
  datatype JsonValue =
    | Null
    | Bool(flag: bool)
    | Number(number: U64)
    | Text(parsed: U64)
    | Array(items: seq<U64>)
    | Object(size: nat)

  /** jsoncpp `empty()`: null, an empty array or an empty object. */
  predicate Empty(value: JsonValue)
  {
    value.Null? || (value.Array? && |value.items| == 0) || (value.Object? && value.size == 0)
  }

  /** The root object of a configuration file. */
  type Config = map<string, JsonValue>

  /** `root[field_name]`: a missing field reads as null. */
  function Field(root: Config, key: string): (value: JsonValue)
    ensures key !in root ==> value == Null
  {
    if key in root then root[key] else Null
  }

  /** The outcome of ParseUint: its result and the output variable afterwards. */
  datatype ParsedUint = ParsedUint(ok: bool, output: nat)

  /**
   * ParseUint: a text field whose value fits the output type is written;
   * anything else leaves the output alone.
   */
  function ParseUint(value: JsonValue, maxValue: nat, output: nat): (r: ParsedUint)
    ensures r.ok <==> value.Text? && value.parsed <= maxValue
    ensures r.ok ==> r.output == value.parsed
    ensures !r.ok ==> r.output == output
    ensures output <= maxValue ==> r.output <= maxValue
  {
    if value.Text? then
      if value.parsed > maxValue then ParsedUint(false, output)
      else ParsedUint(true, value.parsed)
    else ParsedUint(false, output)
  }

  /**
   * The array ParseUintArray leaves: with an array field of the right size,
   * each in-range element replaces the old value at its position.
   */
  function ArrayParsed<T>(value: JsonValue, maxValue: nat, convert: U64 -> T, old_: seq<T>): seq<T>
  {
    if Empty(value) || !value.Array? || |value.items| != |old_| then old_
    else seq(|old_|, k requires 0 <= k < |old_| =>
               if value.items[k] > maxValue then old_[k] else convert(value.items[k]))
  }

  /** ParseUintArray, writing the array element by element; it always returns false. */
  method ParseUintArray<T>(value: JsonValue, maxValue: nat, convert: U64 -> T, output: array<T>) returns (ok: bool)
    modifies output
    ensures !ok
    ensures output[..] == ArrayParsed(value, maxValue, convert, old(output[..]))
  {
    if Empty(value) {
      return false;
    }
    if !value.Array? {
      return false;
    }
    if |value.items| != output.Length {
      return false;
    }
    var n := 0;
    while n < output.Length
      invariant 0 <= n <= output.Length
      invariant forall k | 0 <= k < n ::
                  output[k] == (if value.items[k] > maxValue then old(output[k]) else convert(value.items[k]))
      invariant forall k | n <= k < output.Length :: output[k] == old(output[k])
    {
      var parsed := value.items[n];
      if parsed > maxValue {
      } else {
        output[n] := convert(parsed);
      }
      n := n + 1;
    }
    return false;
  }

  /** An array field of the wrong size, or no array at all, changes nothing. */
  lemma ArrayParsedKeepsOnMismatch<T>(value: JsonValue, maxValue: nat, convert: U64 -> T, s: seq<T>)
    requires !value.Array? || |value.items| != |s|
    ensures ArrayParsed(value, maxValue, convert, s) == s
  {
  }

  /**
   * Position by position, an element is replaced by the configured one exactly
   * when it is in range, and otherwise keeps its old value.
   */
  lemma ArrayParsedAt<T>(value: JsonValue, maxValue: nat, convert: U64 -> T, s: seq<T>, k: nat)
    requires value.Array? && |value.items| == |s| && k < |s|
    ensures |ArrayParsed(value, maxValue, convert, s)| == |s|
    ensures value.items[k] <= maxValue ==> ArrayParsed(value, maxValue, convert, s)[k] == convert(value.items[k])
    ensures value.items[k] > maxValue ==> ArrayParsed(value, maxValue, convert, s)[k] == s[k]
  {
  }

  /** Reading the same array field twice (as the constructor does for lmp_features) is reading it once. */
  lemma ArrayParsedIdempotent<T>(value: JsonValue, maxValue: nat, convert: U64 -> T, s: seq<T>)
    ensures ArrayParsed(value, maxValue, convert, ArrayParsed(value, maxValue, convert, s))
         == ArrayParsed(value, maxValue, convert, s)
  {
  }

  /** The in-range elements of a list, in their original order. */
  function InRange(items: seq<U64>, maxValue: nat): (kept: seq<nat>)
    ensures |kept| <= |items|
    ensures forall k | 0 <= k < |kept| :: kept[k] <= maxValue
  {
    if |items| == 0 then []
    else if items[|items| - 1] > maxValue then InRange(items[..|items| - 1], maxValue)
    else InRange(items[..|items| - 1], maxValue) + [items[|items| - 1]]
  }

  /** An element is kept exactly when it is listed and in range. */
  lemma {:induction false} InRangeMembers(items: seq<U64>, maxValue: nat, x: nat)
    ensures x in InRange(items, maxValue) <==> x in items && x <= maxValue
  {
    if |items| != 0 {
      var init := items[..|items| - 1];
      InRangeMembers(init, maxValue, x);
      assert items == init + [items[|items| - 1]];
    }
  }

  /** Filtering keeps the order: the kept elements of a concatenation are those of each part in turn. */
  lemma {:induction false} InRangeAppend(a: seq<U64>, b: seq<U64>, maxValue: nat)
    ensures InRange(a + b, maxValue) == InRange(a, maxValue) + InRange(b, maxValue)
  {
    if |b| != 0 {
      var init := b[..|b| - 1];
      assert (a + b)[..|a + b| - 1] == a + init;
      InRangeAppend(a, init, maxValue);
    } else {
      assert a + b == a;
    }
  }

  /** The vector ParseUintVector leaves: the in-range elements of an array field, or the old vector. */
  function VectorParsed(value: JsonValue, maxValue: nat, old_: seq<nat>): seq<nat>
  {
    if Empty(value) || !value.Array? then old_ else InRange(value.items, maxValue)
  }

  /** ParseUintVector: clears the vector, then appends each in-range element; it always returns false. */
  method ParseUintVector(value: JsonValue, maxValue: nat, output: seq<nat>) returns (ok: bool, result: seq<nat>)
    ensures !ok
    ensures result == VectorParsed(value, maxValue, output)
  {
    if Empty(value) {
      return false, output;
    }
    if !value.Array? {
      return false, output;
    }
    result := [];
    var n := 0;
    while n < |value.items|
      invariant 0 <= n <= |value.items|
      invariant result == InRange(value.items[..n], maxValue)
    {
      assert value.items[..n + 1][..n] == value.items[..n];
      var parsed := value.items[n];
      if parsed > maxValue {
      } else {
        result := result + [parsed];
      }
      n := n + 1;
    }
    assert value.items[..n] == value.items;
    return false, result;
  }

  /** The numeric code of an LMP version (Bluetooth Assigned Numbers, Link Manager version). */
  function LmpVersionCode(v: LmpVersion): nat
  {
    match v
    case V1_0B => 0
    case V1_1 => 1
    case V1_2 => 2
    case V2_0 => 3
    case V2_1 => 4
    case V3_0 => 5
    case V4_0 => 6
    case V4_1 => 7
    case V4_2 => 8
    case V5_0 => 9
    case V5_1 => 10
    case V5_2 => 11
    case V5_3 => 12
    case Unlisted(code) => code
  }

  /** `static_cast<LmpVersion>(lmp_version)`. */
  function LmpVersionFromCode(code: nat): (v: LmpVersion)
    ensures LmpVersionCode(v) == code
  {
    match code
    case 0 => V1_0B
    case 1 => V1_1
    case 2 => V1_2
    case 3 => V2_0
    case 4 => V2_1
    case 5 => V3_0
    case 6 => V4_0
    case 7 => V4_1
    case 8 => V4_2
    case 9 => V5_0
    case 10 => V5_1
    case 11 => V5_2
    case 12 => V5_3
    case _ => Unlisted(code)
  }

  /** Every version survives the trip through its code. */
  lemma LmpVersionRoundTrip(v: LmpVersion)
    ensures LmpVersionFromCode(LmpVersionCode(v)) == v
  {
  }

  /** Page 0 bits 49 and 38. */
  const TRANSPORT_BITS: Word := 0x0002_0040_0000_0000

  /** The transport flags and page 0 after the transport block of the constructor. */
  datatype Transport = Transport(page0: Word, leSupported: bool, brSupported: bool)

  function SetBits(x: Word, m: Word): Word { x | m }

  function ClearBits(x: Word, m: Word): Word { x & !m }

  /** The transport flags take precedence over the two transport bits of LMP page 0. */
  function TransportOverride(page0: Word, leSupported: bool, brSupported: bool): (r: Transport)
    ensures r.leSupported == (leSupported || !brSupported)
    ensures r.brSupported == (brSupported || !leSupported)
    ensures Supports(r.page0, LE_SUPPORTED_CONTROLLER) <==> r.leSupported
    ensures Supports(r.page0, SIMULTANEOUS_LE_AND_BR_CONTROLLER) <==> r.leSupported && r.brSupported
    ensures ClearBits(r.page0, TRANSPORT_BITS) == ClearBits(page0, TRANSPORT_BITS)
  {
    if leSupported && brSupported then
      SetBothBits(page0);
      Transport(SetBits(SetBits(page0, SIMULTANEOUS_LE_AND_BR_CONTROLLER), LE_SUPPORTED_CONTROLLER), true, true)
    else if leSupported then
      SetLeBitOnly(page0);
      Transport(SetBits(ClearBits(page0, SIMULTANEOUS_LE_AND_BR_CONTROLLER), LE_SUPPORTED_CONTROLLER), true, false)
    else if brSupported then
      ClearBothBits(page0);
      Transport(ClearBits(ClearBits(page0, SIMULTANEOUS_LE_AND_BR_CONTROLLER), LE_SUPPORTED_CONTROLLER), false, true)
    else
      SetBothBits(page0);
      Transport(SetBits(SetBits(page0, SIMULTANEOUS_LE_AND_BR_CONTROLLER), LE_SUPPORTED_CONTROLLER), true, true)
  }

  lemma SetBothBits(x: Word)
    ensures var y := SetBits(SetBits(x, SIMULTANEOUS_LE_AND_BR_CONTROLLER), LE_SUPPORTED_CONTROLLER);
            Supports(y, LE_SUPPORTED_CONTROLLER) && Supports(y, SIMULTANEOUS_LE_AND_BR_CONTROLLER)
            && ClearBits(y, TRANSPORT_BITS) == ClearBits(x, TRANSPORT_BITS)
  {
  }

  lemma SetLeBitOnly(x: Word)
    ensures var y := SetBits(ClearBits(x, SIMULTANEOUS_LE_AND_BR_CONTROLLER), LE_SUPPORTED_CONTROLLER);
            Supports(y, LE_SUPPORTED_CONTROLLER) && !Supports(y, SIMULTANEOUS_LE_AND_BR_CONTROLLER)
            && ClearBits(y, TRANSPORT_BITS) == ClearBits(x, TRANSPORT_BITS)
  {
  }

  lemma ClearBothBits(x: Word)
    ensures var y := ClearBits(ClearBits(x, SIMULTANEOUS_LE_AND_BR_CONTROLLER), LE_SUPPORTED_CONTROLLER);
            !Supports(y, LE_SUPPORTED_CONTROLLER) && !Supports(y, SIMULTANEOUS_LE_AND_BR_CONTROLLER)
            && ClearBits(y, TRANSPORT_BITS) == ClearBits(x, TRANSPORT_BITS)
  {
  }

  /** Applying the block to its own outcome changes nothing more. */
  lemma TransportOverrideIdempotent(page0: Word, leSupported: bool, brSupported: bool)
    ensures var r := TransportOverride(page0, leSupported, brSupported);
            TransportOverride(r.page0, r.leSupported, r.brSupported) == r
  {
    var r := TransportOverride(page0, leSupported, brSupported);
    var s := TransportOverride(r.page0, r.leSupported, r.brSupported);
    assert s.page0 == r.page0 by {
      SameTransportBits(s.page0, r.page0);
    }
  }

  /** Two words that agree on the transport bits and on everything else are equal. */
  lemma SameTransportBits(x: Word, y: Word)
    requires ClearBits(x, TRANSPORT_BITS) == ClearBits(y, TRANSPORT_BITS)
    requires Supports(x, LE_SUPPORTED_CONTROLLER) == Supports(y, LE_SUPPORTED_CONTROLLER)
    requires Supports(x, SIMULTANEOUS_LE_AND_BR_CONTROLLER) == Supports(y, SIMULTANEOUS_LE_AND_BR_CONTROLLER)
    ensures x == y
  {
  }

  /** Configuration keys read by the model of the constructor. */
  const SUPPORTED_COMMANDS_KEY := "supported_commands"
  const LMP_FEATURES_KEY := "lmp_features"
  const LE_FEATURES_KEY := "le_features"
  const LMP_VERSION_KEY := "lmp_version"
  const LEGACY_LMP_VERSION_KEY := "LmpPalVersion"
  const SUPPORTED_STANDARD_CODECS_KEY := "supported_standard_codecs"
  const LEGACY_SCO_DATA_PACKET_LENGTH_KEY := "ScoDataPacketSize"
  const SCO_DATA_PACKET_LENGTH_KEY := "sco_data_packet_length"
  /** The key the constructor looks up for the synchronous packet length, with a trailing space. */
  const SCO_DATA_PACKET_LENGTH_KEY_AS_WRITTEN := "sco_data_packet_length "

  /** The synchronous data packet length as the constructor reads it, with the key as written. */
  function ScoDataPacketLengthAsWritten(root: Config, current: nat): (length: nat)
    ensures var spaced := Field(root, SCO_DATA_PACKET_LENGTH_KEY_AS_WRITTEN);
            spaced.Text? && spaced.parsed <= UINT8_MAX ==> length == spaced.parsed
    ensures var spaced, legacy := Field(root, SCO_DATA_PACKET_LENGTH_KEY_AS_WRITTEN), Field(root, LEGACY_SCO_DATA_PACKET_LENGTH_KEY);
            !(spaced.Text? && spaced.parsed <= UINT8_MAX) && legacy.Text? && legacy.parsed <= UINT8_MAX ==> length == legacy.parsed
    ensures var spaced, legacy := Field(root, SCO_DATA_PACKET_LENGTH_KEY_AS_WRITTEN), Field(root, LEGACY_SCO_DATA_PACKET_LENGTH_KEY);
            !(spaced.Text? && spaced.parsed <= UINT8_MAX) && !(legacy.Text? && legacy.parsed <= UINT8_MAX) ==> length == current
  {
    var legacy := ParseUint(Field(root, LEGACY_SCO_DATA_PACKET_LENGTH_KEY), UINT8_MAX, current).output;
    ParseUint(Field(root, SCO_DATA_PACKET_LENGTH_KEY_AS_WRITTEN), UINT8_MAX, legacy).output
  }

  /** The synchronous data packet length read under its documented key. */
  function ScoDataPacketLength(root: Config, current: nat): (length: nat)
    ensures var value := Field(root, SCO_DATA_PACKET_LENGTH_KEY);
            value.Text? && value.parsed <= UINT8_MAX ==> length == value.parsed
  {
    var legacy := ParseUint(Field(root, LEGACY_SCO_DATA_PACKET_LENGTH_KEY), UINT8_MAX, current).output;
    ParseUint(Field(root, SCO_DATA_PACKET_LENGTH_KEY), UINT8_MAX, legacy).output
  }

  /**
   * With the key as written, a configuration that sets sco_data_packet_length
   * has no effect; read under its own name the value is taken.
   */
  lemma ScoDataPacketLengthKeyIgnored()
    ensures ScoDataPacketLengthAsWritten(map[SCO_DATA_PACKET_LENGTH_KEY := Text(60)], 64) == 64
    ensures ScoDataPacketLength(map[SCO_DATA_PACKET_LENGTH_KEY := Text(60)], 64) == 60
  {
    var root := map[SCO_DATA_PACKET_LENGTH_KEY := Text(60)];
    assert SCO_DATA_PACKET_LENGTH_KEY_AS_WRITTEN != SCO_DATA_PACKET_LENGTH_KEY by {
      assert |SCO_DATA_PACKET_LENGTH_KEY_AS_WRITTEN| != |SCO_DATA_PACKET_LENGTH_KEY|;
    }
    assert LEGACY_SCO_DATA_PACKET_LENGTH_KEY != SCO_DATA_PACKET_LENGTH_KEY by {
      assert LEGACY_SCO_DATA_PACKET_LENGTH_KEY[0] != SCO_DATA_PACKET_LENGTH_KEY[0];
    }
  }

  /** `static_cast<T>` of a value already known to fit. */
  function ToOctet(n: U64): bv8
  {
    (n % 0x100) as bv8
  }

  function ToWord(n: U64): Word
  {
    n as bv64
  }

  /** The part of the controller state the model of the constructor reads and writes. */
  class ControllerProperties {
    var supportedCommands: array<bv8>
    var lmpFeatures: array<Word>
    var leFeatures: Word
    var lmpVersion: LmpVersion
    var leSupported: bool
    var brSupported: bool
    var supportedStandardCodecs: seq<nat>
    var scoDataPacketLength: nat

    ghost predicate Valid()
      reads this
    {
      supportedCommands.Length == COMMAND_OCTETS && lmpFeatures.Length == 3
    }

    /** CheckSupportedFeatures on the current version and pages 0 and 2. */
    predicate FeaturesConsistent()
      reads this, lmpFeatures
      requires lmpFeatures.Length == 3
    {
      CheckSupportedFeatures(lmpVersion, lmpFeatures[0], lmpFeatures[2])
    }

    /**
     * The defaults before any configuration: the supported commands and
     * feature pages built from their lists, both transports supported. The
     * version, codec list and packet length keep the defaults they are given,
     * which the class declaration sets outside this model.
     */
    constructor(commandIndices: seq<nat>, version: LmpVersion, codecs: seq<nat>, scoLength: nat)
      requires ValidIndices(commandIndices)
      ensures Valid() && fresh(supportedCommands) && fresh(lmpFeatures)
      ensures supportedCommands[..] == PackCommands(commandIndices)
      ensures lmpFeatures[..] == [OrAll(PAGE0_LMP_FEATURE_LIST), 0, OrAll(PAGE2_LMP_FEATURE_LIST)]
      ensures leFeatures == OrAll(LL_FEATURE_LIST)
      ensures lmpVersion == version && leSupported && brSupported
      ensures supportedStandardCodecs == codecs && scoDataPacketLength == scoLength
    {
      var commands := SupportedCommands(commandIndices);
      supportedCommands := new bv8[COMMAND_OCTETS](k requires 0 <= k < COMMAND_OCTETS => commands[k]);
      var page0 := Page0LmpFeatures();
      var page2 := Page2LmpFeatures();
      lmpFeatures := new Word[3](k => if k == 0 then page0 else if k == 2 then page2 else 0);
      var ll := LlFeatures();
      leFeatures := ll;
      lmpVersion := version;
      leSupported := true;
      brSupported := true;
      supportedStandardCodecs := codecs;
      scoDataPacketLength := scoLength;
    }

    /**
     * The transport block of the constructor: the configured flags, with
     * "neither" read as "both", set or clear the two transport bits of page 0.
     */
    method ApplyTransportFlags(le: bool, br: bool)
      requires Valid()
      modifies this, lmpFeatures
      ensures Valid() && supportedCommands == old(supportedCommands) && lmpFeatures == old(lmpFeatures)
      ensures Transport(lmpFeatures[0], leSupported, brSupported) == TransportOverride(old(lmpFeatures[0]), le, br)
      ensures lmpFeatures[1] == old(lmpFeatures[1]) && lmpFeatures[2] == old(lmpFeatures[2])
      ensures leFeatures == old(leFeatures) && lmpVersion == old(lmpVersion)
      ensures supportedStandardCodecs == old(supportedStandardCodecs)
      ensures scoDataPacketLength == old(scoDataPacketLength)
    {
      leSupported := le;
      brSupported := br;
      if leSupported && brSupported {
        lmpFeatures[0] := SetBits(lmpFeatures[0], SIMULTANEOUS_LE_AND_BR_CONTROLLER);
        lmpFeatures[0] := SetBits(lmpFeatures[0], LE_SUPPORTED_CONTROLLER);
      } else if leSupported {
        lmpFeatures[0] := ClearBits(lmpFeatures[0], SIMULTANEOUS_LE_AND_BR_CONTROLLER);
        lmpFeatures[0] := SetBits(lmpFeatures[0], LE_SUPPORTED_CONTROLLER);
      } else if brSupported {
        lmpFeatures[0] := ClearBits(lmpFeatures[0], SIMULTANEOUS_LE_AND_BR_CONTROLLER);
        lmpFeatures[0] := ClearBits(lmpFeatures[0], LE_SUPPORTED_CONTROLLER);
      } else {
        brSupported := true;
        leSupported := true;
        lmpFeatures[0] := SetBits(lmpFeatures[0], SIMULTANEOUS_LE_AND_BR_CONTROLLER);
        lmpFeatures[0] := SetBits(lmpFeatures[0], LE_SUPPORTED_CONTROLLER);
      }
    }

    /** The configuration readers of the constructor for the modelled fields, in its order. */
    method ReadSettings(root: Config)
      requires Valid()
      modifies this, supportedCommands, lmpFeatures
      ensures Valid() && supportedCommands == old(supportedCommands) && lmpFeatures == old(lmpFeatures)
      ensures supportedCommands[..] == ArrayParsed(Field(root, SUPPORTED_COMMANDS_KEY), UINT8_MAX, ToOctet, old(supportedCommands[..]))
      ensures lmpFeatures[..] == ArrayParsed(Field(root, LMP_FEATURES_KEY), UINT64_MAX, ToWord, old(lmpFeatures[..]))
      ensures leFeatures == ToWord(ParseUint(Field(root, LE_FEATURES_KEY), UINT64_MAX, old(leFeatures) as nat).output)
      ensures var legacy := ParseUint(Field(root, LEGACY_LMP_VERSION_KEY), UINT8_MAX, LmpVersionCode(old(lmpVersion)) % 0x100).output;
              lmpVersion == LmpVersionFromCode(ParseUint(Field(root, LMP_VERSION_KEY), UINT8_MAX, legacy).output)
      ensures supportedStandardCodecs == VectorParsed(Field(root, SUPPORTED_STANDARD_CODECS_KEY), UINT8_MAX, old(supportedStandardCodecs))
      ensures scoDataPacketLength == ScoDataPacketLengthAsWritten(root, old(scoDataPacketLength))
      ensures leSupported == old(leSupported) && brSupported == old(brSupported)
    {
      var version := LmpVersionCode(lmpVersion) % 0x100;
      version := ParseUint(Field(root, LEGACY_LMP_VERSION_KEY), UINT8_MAX, version).output;
      version := ParseUint(Field(root, LMP_VERSION_KEY), UINT8_MAX, version).output;
      var ok := ParseUintArray(Field(root, SUPPORTED_COMMANDS_KEY), UINT8_MAX, ToOctet, supportedCommands);
      ok := ParseUintArray(Field(root, LMP_FEATURES_KEY), UINT64_MAX, ToWord, lmpFeatures);
      var features := ParseUint(Field(root, LE_FEATURES_KEY), UINT64_MAX, leFeatures as nat).output;
      leFeatures := ToWord(features);
      scoDataPacketLength := ScoDataPacketLengthAsWritten(root, scoDataPacketLength);
      ok := ParseUintArray(Field(root, LMP_FEATURES_KEY), UINT64_MAX, ToWord, lmpFeatures);
      ArrayParsedIdempotent(Field(root, LMP_FEATURES_KEY), UINT64_MAX, ToWord, old(lmpFeatures[..]));
      ok, supportedStandardCodecs := ParseUintVector(Field(root, SUPPORTED_STANDARD_CODECS_KEY), UINT8_MAX, supportedStandardCodecs);
      lmpVersion := LmpVersionFromCode(version);
    }

    /**
     * The configuration part of the constructor: the readers, the transport
     * block and the final feature check, whose outcome (logged by the
     * constructor) is `consistent`.
     */
    method Configure(root: Config, le: bool, br: bool) returns (consistent: bool)
      requires Valid()
      modifies this, supportedCommands, lmpFeatures
      ensures Valid() && supportedCommands == old(supportedCommands) && lmpFeatures == old(lmpFeatures)
      ensures supportedCommands[..] == ArrayParsed(Field(root, SUPPORTED_COMMANDS_KEY), UINT8_MAX, ToOctet, old(supportedCommands[..]))
      ensures var pages := ArrayParsed(Field(root, LMP_FEATURES_KEY), UINT64_MAX, ToWord, old(lmpFeatures[..]));
              lmpFeatures[1] == pages[1] && lmpFeatures[2] == pages[2]
              && Transport(lmpFeatures[0], leSupported, brSupported) == TransportOverride(pages[0], le, br)
      ensures leFeatures == ToWord(ParseUint(Field(root, LE_FEATURES_KEY), UINT64_MAX, old(leFeatures) as nat).output)
      ensures var legacy := ParseUint(Field(root, LEGACY_LMP_VERSION_KEY), UINT8_MAX, LmpVersionCode(old(lmpVersion)) % 0x100).output;
              lmpVersion == LmpVersionFromCode(ParseUint(Field(root, LMP_VERSION_KEY), UINT8_MAX, legacy).output)
      ensures supportedStandardCodecs == VectorParsed(Field(root, SUPPORTED_STANDARD_CODECS_KEY), UINT8_MAX, old(supportedStandardCodecs))
      ensures scoDataPacketLength == ScoDataPacketLengthAsWritten(root, old(scoDataPacketLength))
      ensures consistent == FeaturesConsistent()
    {
      ReadSettings(root);
      ghost var pages := lmpFeatures[..];
      ApplyTransportFlags(le, br);
      assert lmpFeatures[1] == pages[1] && lmpFeatures[2] == pages[2];
      consistent := CheckSupportedFeatures(lmpVersion, lmpFeatures[0], lmpFeatures[2]);
    }
  }
}
