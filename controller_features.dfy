/**
 * LMP and LL feature words of the RootCanal simulated controller
 * (tools/rootcanal/model/controller/controller_properties.cc).
 *
 * A feature word is a 64-bit mask. The bit positions are those of the
 * Bluetooth Core Specification, Vol 2, Part C, section 3.3 (LMP feature
 * pages 0 and 2) and Vol 6, Part B, section 4.6 (LL features).
 */
module ControllerFeatures {

  type Word = bv64

  /** The mask of feature bit `pos`, as the HCI feature enumerations define it. */
  function Mask(pos: nat): Word
    requires pos < 64
  {
    (1 as bv64) << pos
  }

  /** True when `features` has a bit of `mask` set (SupportsLMPFeature / SupportsLLFeature). */
  predicate Supports(features: Word, mask: Word)
  {
    features & mask != 0
  }

  // LMP feature page 0 (Vol 2, Part C, section 3.3).
  const LMP_3_SLOT_PACKETS: Word := 0x1
  const LMP_5_SLOT_PACKETS: Word := 0x2
  const ENCRYPTION: Word := 0x4
  const SLOT_OFFSET: Word := 0x8
  const TIMING_ACCURACY: Word := 0x10
  const ROLE_SWITCH: Word := 0x20
  const HOLD_MODE: Word := 0x40
  const SNIFF_MODE: Word := 0x80
  const POWER_CONTROL_REQUESTS: Word := 0x200
  const CHANNEL_QUALITY_DRIVEN_DATA_RATE: Word := 0x400
  const SCO_LINK: Word := 0x800
  const HV2_PACKETS: Word := 0x1000
  const HV3_PACKETS: Word := 0x2000
  const M_LAW_LOG_SYNCHRONOUS_DATA: Word := 0x4000
  const A_LAW_LOG_SYNCHRONOUS_DATA: Word := 0x8000
  const CVSD_SYNCHRONOUS_DATA: Word := 0x10000
  const PAGING_PARAMETER_NEGOTIATION: Word := 0x20000
  const POWER_CONTROL: Word := 0x40000
  const TRANSPARENT_SYNCHRONOUS_DATA: Word := 0x80000
  const BROADCAST_ENCRYPTION: Word := 0x800000
  const ENHANCED_DATA_RATE_ACL_2_MB_S_MODE: Word := 0x2000000
  const ENHANCED_DATA_RATE_ACL_3_MB_S_MODE: Word := 0x4000000
  const ENHANCED_INQUIRY_SCAN: Word := 0x8000000
  const INTERLACED_INQUIRY_SCAN: Word := 0x10000000
  const INTERLACED_PAGE_SCAN: Word := 0x20000000
  const RSSI_WITH_INQUIRY_RESULTS: Word := 0x40000000
  const EXTENDED_SCO_LINK: Word := 0x80000000
  const EV4_PACKETS: Word := 0x100000000
  const EV5_PACKETS: Word := 0x200000000
  const AFH_CAPABLE_PERIPHERAL: Word := 0x800000000
  const AFH_CLASSIFICATION_PERIPHERAL: Word := 0x1000000000
  const BR_EDR_NOT_SUPPORTED: Word := 0x2000000000
  const LE_SUPPORTED_CONTROLLER: Word := 0x4000000000
  const LMP_3_SLOT_ENHANCED_DATA_RATE_ACL_PACKETS: Word := 0x8000000000
  const LMP_5_SLOT_ENHANCED_DATA_RATE_ACL_PACKETS: Word := 0x10000000000
  const SNIFF_SUBRATING: Word := 0x20000000000
  const PAUSE_ENCRYPTION: Word := 0x40000000000
  const AFH_CAPABLE_CENTRAL: Word := 0x80000000000
  const AFH_CLASSIFICATION_CENTRAL: Word := 0x100000000000
  const ENHANCED_DATA_RATE_ESCO_2_MB_S_MODE: Word := 0x200000000000
  const ENHANCED_DATA_RATE_ESCO_3_MB_S_MODE: Word := 0x400000000000
  const LMP_3_SLOT_ENHANCED_DATA_RATE_ESCO_PACKETS: Word := 0x800000000000
  const EXTENDED_INQUIRY_RESPONSE: Word := 0x1000000000000
  const SIMULTANEOUS_LE_AND_BR_CONTROLLER: Word := 0x2000000000000
  const SECURE_SIMPLE_PAIRING_CONTROLLER: Word := 0x8000000000000
  const ENCAPSULATED_PDU: Word := 0x10000000000000
  const ERRONEOUS_DATA_REPORTING: Word := 0x20000000000000
  const HCI_LINK_SUPERVISION_TIMEOUT_CHANGED_EVENT: Word := 0x100000000000000
  const VARIABLE_INQUIRY_TX_POWER_LEVEL: Word := 0x200000000000000
  const ENHANCED_POWER_CONTROL: Word := 0x400000000000000
  const EXTENDED_FEATURES: Word := 0x8000000000000000

  // LMP feature page 2 (Vol 2, Part C, section 3.3).
  const CONNECTIONLESS_PERIPHERAL_BROADCAST_TRANSMITTER_OPERATION: Word := 0x1
  const CONNECTIONLESS_PERIPHERAL_BROADCAST_RECEIVER_OPERATION: Word := 0x2
  const SYNCHRONIZATION_TRAIN: Word := 0x4
  const SYNCHRONIZATION_SCAN: Word := 0x8
  const GENERALIZED_INTERLACED_SCAN: Word := 0x20
  const COARSE_CLOCK_ADJUSTMENT: Word := 0x40
  const SECURE_CONNECTIONS_CONTROLLER_SUPPORT: Word := 0x100
  const PING: Word := 0x200
  const SLOT_AVAILABILITY_MASK: Word := 0x400

  // LL features (Vol 6, Part B, section 4.6).
  const LE_ENCRYPTION: Word := 0x1
  const CONNECTION_PARAMETERS_REQUEST_PROCEDURE: Word := 0x2
  const EXTENDED_REJECT_INDICATION: Word := 0x4
  const PERIPHERAL_INITIATED_FEATURES_EXCHANGE: Word := 0x8
  const LE_PING: Word := 0x10
  const LL_PRIVACY: Word := 0x40
  const EXTENDED_SCANNER_FILTER_POLICIES: Word := 0x80
  const LE_2M_PHY: Word := 0x100
  const LE_CODED_PHY: Word := 0x800
  const LE_EXTENDED_ADVERTISING: Word := 0x1000

  /** The page 0 features the controller enables by default (Page0LmpFeatures). */
  const PAGE0_LMP_FEATURE_LIST: seq<Word> := [
    LMP_3_SLOT_PACKETS, LMP_5_SLOT_PACKETS, ENCRYPTION, SLOT_OFFSET,
    TIMING_ACCURACY, ROLE_SWITCH, HOLD_MODE, SNIFF_MODE, POWER_CONTROL_REQUESTS,
    CHANNEL_QUALITY_DRIVEN_DATA_RATE, SCO_LINK, HV2_PACKETS, HV3_PACKETS,
    M_LAW_LOG_SYNCHRONOUS_DATA, A_LAW_LOG_SYNCHRONOUS_DATA, CVSD_SYNCHRONOUS_DATA,
    PAGING_PARAMETER_NEGOTIATION, POWER_CONTROL, TRANSPARENT_SYNCHRONOUS_DATA,
    BROADCAST_ENCRYPTION, ENHANCED_DATA_RATE_ACL_2_MB_S_MODE,
    ENHANCED_DATA_RATE_ACL_3_MB_S_MODE, ENHANCED_INQUIRY_SCAN,
    INTERLACED_INQUIRY_SCAN, INTERLACED_PAGE_SCAN, RSSI_WITH_INQUIRY_RESULTS,
    EXTENDED_SCO_LINK, EV4_PACKETS, EV5_PACKETS, AFH_CAPABLE_PERIPHERAL,
    AFH_CLASSIFICATION_PERIPHERAL, LE_SUPPORTED_CONTROLLER,
    LMP_3_SLOT_ENHANCED_DATA_RATE_ACL_PACKETS,
    LMP_5_SLOT_ENHANCED_DATA_RATE_ACL_PACKETS, SNIFF_SUBRATING, PAUSE_ENCRYPTION,
    AFH_CAPABLE_CENTRAL, AFH_CLASSIFICATION_CENTRAL,
    ENHANCED_DATA_RATE_ESCO_2_MB_S_MODE, ENHANCED_DATA_RATE_ESCO_3_MB_S_MODE,
    LMP_3_SLOT_ENHANCED_DATA_RATE_ESCO_PACKETS, EXTENDED_INQUIRY_RESPONSE,
    SIMULTANEOUS_LE_AND_BR_CONTROLLER, SECURE_SIMPLE_PAIRING_CONTROLLER,
    ENCAPSULATED_PDU, HCI_LINK_SUPERVISION_TIMEOUT_CHANGED_EVENT,
    VARIABLE_INQUIRY_TX_POWER_LEVEL, ENHANCED_POWER_CONTROL, EXTENDED_FEATURES]

  /** The page 2 features enabled by default (Page2LmpFeatures). */
  const PAGE2_LMP_FEATURE_LIST: seq<Word> := [SECURE_CONNECTIONS_CONTROLLER_SUPPORT, PING]

  /** The LL features enabled by default (LlFeatures). */
  const LL_FEATURE_LIST: seq<Word> := [
    LE_ENCRYPTION, CONNECTION_PARAMETERS_REQUEST_PROCEDURE,
    EXTENDED_REJECT_INDICATION, PERIPHERAL_INITIATED_FEATURES_EXCHANGE, LE_PING,
    EXTENDED_SCANNER_FILTER_POLICIES, LE_2M_PHY, LE_CODED_PHY,
    LE_EXTENDED_ADVERTISING]

  /** `a | b`, kept behind a function so that proofs about folds stay cheap. */
  function Or(a: Word, b: Word): Word
  {
    a | b
  }

  /** Every feature of `m` is a feature of `x`. */
  predicate Within(m: Word, x: Word)
  {
    Or(m, x) == x
  }

  /** The bitwise OR of a list of feature masks, folded from the left. */
  function OrAll(masks: seq<Word>): Word
  {
    if |masks| == 0 then 0 else Or(OrAll(masks[..|masks| - 1]), masks[|masks| - 1])
  }

  /** `value |= feature` over the list, as each of the three feature builders does. */
  method FoldFeatures(features: seq<Word>) returns (value: Word)
    ensures value == OrAll(features)
  {
    value := 0;
    var i := 0;
    while i < |features|
      invariant 0 <= i <= |features|
      invariant value == OrAll(features[..i])
    {
      assert features[..i + 1][..i] == features[..i];
      value := value | features[i];
      i := i + 1;
    }
    assert features[..i] == features;
  }

  /** Page0LmpFeatures: the default page 0 word. */
  method Page0LmpFeatures() returns (value: Word)
    ensures value == OrAll(PAGE0_LMP_FEATURE_LIST)
  {
    value := FoldFeatures(PAGE0_LMP_FEATURE_LIST);
  }

  /** Page2LmpFeatures: the default page 2 word. */
  method Page2LmpFeatures() returns (value: Word)
    ensures value == OrAll(PAGE2_LMP_FEATURE_LIST)
  {
    value := FoldFeatures(PAGE2_LMP_FEATURE_LIST);
  }

  /** LlFeatures: the default LL feature word. */
  method LlFeatures() returns (value: Word)
    ensures value == OrAll(LL_FEATURE_LIST)
  {
    value := FoldFeatures(LL_FEATURE_LIST);
  }

  /** Every listed feature is contained in the folded word. */
  lemma {:induction false} OrAllCovers(masks: seq<Word>, i: nat)
    requires i < |masks|
    ensures Within(masks[i], OrAll(masks))
  {
    var n := |masks| - 1;
    var init := masks[..n];
    if i < n {
      OrAllCovers(init, i);
      OrWithinLeft(masks[i], OrAll(init), masks[n]);
    } else {
      OrWithinRight(OrAll(init), masks[n]);
    }
  }

  /** The feature of entry `i` is supported by the folded word. */
  lemma ListedBitSet(masks: seq<Word>, i: nat)
    requires i < |masks| && masks[i] != 0
    ensures Supports(OrAll(masks), masks[i])
  {
    OrAllCovers(masks, i);
    WithinSupports(masks[i], OrAll(masks));
  }

  /** The folded word is the least word containing every listed feature. */
  lemma {:induction false} OrAllLeast(masks: seq<Word>, x: Word)
    requires forall i | 0 <= i < |masks| :: Within(masks[i], x)
    ensures Within(OrAll(masks), x)
  {
    if |masks| == 0 {
      OrZero(x);
    } else {
      var n := |masks| - 1;
      var init := masks[..n];
      OrAllLeast(init, x);
      OrJoin(OrAll(init), masks[n], x);
    }
  }

  /**
   * The feature word depends only on the set of listed features: neither the
   * order of the list nor repeated entries change it.
   */
  lemma OrAllSameSet(a: seq<Word>, b: seq<Word>)
    requires forall e :: e in a <==> e in b
    ensures OrAll(a) == OrAll(b)
  {
    var x, y := OrAll(a), OrAll(b);
    forall i | 0 <= i < |b| ensures Within(b[i], x) {
      assert b[i] in b;
      var j :| 0 <= j < |a| && a[j] == b[i];
      OrAllCovers(a, j);
    }
    OrAllLeast(b, x);
    forall i | 0 <= i < |a| ensures Within(a[i], y) {
      assert a[i] in a;
      var j :| 0 <= j < |b| && b[j] == a[i];
      OrAllCovers(b, j);
    }
    OrAllLeast(a, y);
    OrAntisymmetric(x, y);
  }

  /**
   * The folded word has a bit of `m` exactly when some listed feature has one
   * (the word supports a feature exactly when it was listed).
   */
  lemma {:induction false} OrAllSupports(masks: seq<Word>, m: Word)
    ensures Supports(OrAll(masks), m) <==> exists i | 0 <= i < |masks| :: Supports(masks[i], m)
  {
    if |masks| == 0 {
      ZeroSupports(m);
    } else {
      var n := |masks| - 1;
      var init := masks[..n];
      OrAllSupports(init, m);
      assert forall i | 0 <= i < |init| :: init[i] == masks[i];
      OrSupports(OrAll(init), masks[n], m);
    }
  }

  lemma OrZero(x: Word)
    ensures Within(0, x)
  {
  }

  lemma OrWithinLeft(m: Word, a: Word, b: Word)
    requires Within(m, a)
    ensures Within(m, Or(a, b))
  {
  }

  lemma OrWithinRight(a: Word, b: Word)
    ensures Within(b, Or(a, b))
  {
  }

  lemma WithinSupports(m: Word, x: Word)
    requires Within(m, x) && m != 0
    ensures Supports(x, m)
  {
  }

  lemma OrJoin(a: Word, m: Word, x: Word)
    requires Within(a, x) && Within(m, x)
    ensures Within(Or(a, m), x)
  {
  }

  lemma OrAntisymmetric(x: Word, y: Word)
    requires Within(y, x) && Within(x, y)
    ensures x == y
  {
  }

  lemma ZeroSupports(m: Word)
    ensures !Supports(0, m)
  {
  }

  lemma OrSupports(a: Word, b: Word, m: Word)
    ensures Supports(Or(a, b), m) <==> Supports(a, m) || Supports(b, m)
  {
    NeitherSupports(a, b, m);
    EitherSupports(a, b, m);
    EitherSupports(b, a, m);
    assert Or(b, a) == Or(a, b);
  }

  /** A bit of `m` missing from both `a` and `b` is missing from their union. */
  lemma NeitherSupports(a: Word, b: Word, m: Word)
    ensures !Supports(a, m) && !Supports(b, m) ==> !Supports(Or(a, b), m)
  {
    if !Supports(a, m) && !Supports(b, m) {
      AndDistributes(a, b, m);
    }
  }

  /** A bit of `m` present in `a` stays present in any union with `a`. */
  lemma EitherSupports(a: Word, b: Word, m: Word)
    ensures Supports(a, m) ==> Supports(Or(a, b), m)
  {
    AndAbsorbs(a, b, m);
  }

  lemma AndDistributes(a: Word, b: Word, m: Word)
    ensures (a | b) & m == (a & m) | (b & m)
  {
  }

  lemma AndAbsorbs(a: Word, b: Word, m: Word)
    ensures ((a | b) & m) & a == a & m
  {
  }
}
