/**
 * Validation of the LMP feature pages against the LMP version
 * (ControllerProperties::CheckSupportedFeatures).
 *
 * The reserved masks follow the Bluetooth Core Specification, Vol 2, Part C,
 * section 3.3 for each version, and the feature rules its section 3.5
 * (Tables 3.5 to 3.9, for devices supporting BR/EDR).
 */
module ControllerFeatureCheck {
  import opened ControllerFeatures

  /** An LMP version code past the last listed one (5.3 has code 12). */
  type UnlistedCode = code: nat | code > 12 witness 13

  /** The LMP versions the check distinguishes; any other value is checked as 5.3. */
  datatype LmpVersion =
    | V1_0B | V1_1 | V1_2 | V2_0 | V2_1 | V3_0 | V4_0
    | V4_1 | V4_2 | V5_0 | V5_1 | V5_2 | V5_3
    | Unlisted(code: UnlistedCode)

  /** The position of a version in release order; unlisted versions come last. */
  function Release(v: LmpVersion): nat
  {
    match v
    case V1_0B => 0
    case V1_1 => 1
    case V1_2 => 2
    case V2_0 => 3
    case V2_1 => 4
    case V3_0 => 5
    case V4_0 => 6
    case V4_1 => 7
    case V4_2 => 8
    case V5_0 => 9
    case V5_1 => 10
    case V5_2 => 11
    case V5_3 => 12
    case Unlisted(_) => 12
  }

  datatype ReservedMasks = ReservedMasks(page0: Word, page2: Word)

  /**
   * The versions that share one pair of reserved masks, numbered in release
   * order: 1.0b to 1.2, 2.0, 2.1, 3.0, 4.0, 4.1 and 4.2, 5.0, then 5.1 and later.
   */
  function MaskGroup(v: LmpVersion): (g: nat)
    ensures g <= 7
  {
    match v
    case V1_0B | V1_1 | V1_2 => 0
    case V2_0 => 1
    case V2_1 => 2
    case V3_0 => 3
    case V4_0 => 4
    case V4_1 | V4_2 => 5
    case V5_0 => 6
    case _ => 7
  }

  /** The page 0 reserved mask of each group, from Vol 2, Part C, section 3.3 of each version. */
  const PAGE0_RESERVED: seq<Word> := [
    0x7fffe7e407000000, 0x7fff066401000000, 0x7c86006401000000, 0x7886006401000000,
    0x7884000401000000, 0x7884000401000000, 0x7884000401000100, 0x7884000401000100
  ]

  /** The page 2 reserved mask of each group, in the same order. */
  const PAGE2_RESERVED: seq<Word> := [
    0xffffffffffffffff, 0xffffffffffffffff, 0xffffffffffffffff, 0xffffffffffffffff,
    0xffffffffffffffff, 0xfffffffffffff480, 0xfffffffffffff480, 0xfffffffffffff080
  ]

  /** The page 0 and page 2 bits a version leaves reserved or deprecated. */
  function Reserved(v: LmpVersion): ReservedMasks
  {
    ReservedMasks(PAGE0_RESERVED[MaskGroup(v)], PAGE2_RESERVED[MaskGroup(v)])
  }

  /** Page 0 bit 8, the former park state bit, deprecated again in version 5.0. */
  const PARK_STATE: Word := 0x100

  /** Later releases fall in the same or a later mask group. */
  lemma MaskGroupMonotonic(v: LmpVersion, w: LmpVersion)
    requires Release(v) <= Release(w)
    ensures MaskGroup(v) <= MaskGroup(w)
  {
  }

  /** Page 0 mask `later` reserves no bit that `earlier` defines, the park state bit aside. */
  predicate Page0Below(later: Word, earlier: Word)
  {
    Within(later & !PARK_STATE, earlier)
  }

  /** Page 2 mask `later` reserves no bit that `earlier` defines. */
  predicate Page2Below(later: Word, earlier: Word)
  {
    Within(later, earlier)
  }

  ghost predicate Transitive<T(!new)>(below: (T, T) -> bool)
  {
    forall a, b, c :: below(a, b) && below(b, c) ==> below(a, c)
  }

  /** In a sequence where each element is below the one before, each is below every earlier one. */
  lemma {:induction false} ChainBelow<T(!new)>(xs: seq<T>, below: (T, T) -> bool, g: nat, h: nat)
    requires Transitive(below)
    requires forall i :: 0 < i < |xs| ==> below(xs[i], xs[i - 1])
    requires g < h < |xs|
    ensures below(xs[h], xs[g])
  {
    if g < h - 1 {
      ChainBelow(xs, below, g, h - 1);
    }
  }

  /** A mask, less some bits, is within itself. */
  lemma WithinSelf(x: Word, except: Word)
    ensures Within(x & !except, x)
    ensures Within(x, x)
  {
  }

  lemma Page0Chain(a: Word, b: Word, c: Word)
    requires Page0Below(a, b) && Page0Below(b, c)
    ensures Page0Below(a, c)
  {
  }

  lemma Page2Chain(a: Word, b: Word, c: Word)
    requires Page2Below(a, b) && Page2Below(b, c)
    ensures Page2Below(a, c)
  {
  }

  lemma Page0BelowTransitive()
    ensures Transitive(Page0Below)
  {
    forall a, b, c | Page0Below(a, b) && Page0Below(b, c)
      ensures Page0Below(a, c)
    {
      Page0Chain(a, b, c);
    }
  }

  lemma Page2BelowTransitive()
    ensures Transitive(Page2Below)
  {
    forall a, b, c | Page2Below(a, b) && Page2Below(b, c)
      ensures Page2Below(a, c)
    {
      Page2Chain(a, b, c);
    }
  }

  /** Each page 0 mask group reserves no more than the one before, the park state bit aside. */
  lemma Page0Steps()
    ensures forall i :: 0 < i < |PAGE0_RESERVED| ==> Page0Below(PAGE0_RESERVED[i], PAGE0_RESERVED[i - 1])
  {
    forall i | 0 < i < |PAGE0_RESERVED|
      ensures Page0Below(PAGE0_RESERVED[i], PAGE0_RESERVED[i - 1])
    {
      if i == 1 {
      } else if i == 2 {
      } else if i == 3 {
      } else if i == 4 {
      } else if i == 5 {
      } else if i == 6 {
      } else {
      }
    }
  }

  /** Each page 2 mask group reserves no more than the one before. */
  lemma Page2Steps()
    ensures forall i :: 0 < i < |PAGE2_RESERVED| ==> Page2Below(PAGE2_RESERVED[i], PAGE2_RESERVED[i - 1])
  {
    forall i | 0 < i < |PAGE2_RESERVED|
      ensures Page2Below(PAGE2_RESERVED[i], PAGE2_RESERVED[i - 1])
    {
      if i < 5 {
      } else if i == 5 {
      } else if i == 6 {
      } else {
      }
    }
  }

  /**
   * Later versions only ever define bits: every bit reserved in a later version
   * was already reserved in an earlier one, except the park state bit.
   */
  lemma ReservedShrinks(v: LmpVersion, w: LmpVersion)
    requires Release(v) <= Release(w)
    ensures Page0Below(Reserved(w).page0, Reserved(v).page0)
    ensures Page2Below(Reserved(w).page2, Reserved(v).page2)
  {
    MaskGroupMonotonic(v, w);
    Page0Shrinks(MaskGroup(v), MaskGroup(w));
    Page2Shrinks(MaskGroup(v), MaskGroup(w));
  }

  /** No later page 0 mask group reserves a bit an earlier one defines, the park state bit aside. */
  lemma Page0Shrinks(g: nat, h: nat)
    requires g <= h < |PAGE0_RESERVED|
    ensures Page0Below(PAGE0_RESERVED[h], PAGE0_RESERVED[g])
  {
    if g == h {
      WithinSelf(PAGE0_RESERVED[g], PARK_STATE);
    } else {
      Page0BelowTransitive();
      Page0Steps();
      ChainBelow(PAGE0_RESERVED, Page0Below, g, h);
    }
  }

  /** No later page 2 mask group reserves a bit an earlier one defines. */
  lemma Page2Shrinks(g: nat, h: nat)
    requires g <= h < |PAGE2_RESERVED|
    ensures Page2Below(PAGE2_RESERVED[h], PAGE2_RESERVED[g])
  {
    if g == h {
      WithinSelf(PAGE2_RESERVED[g], 0);
    } else {
      Page2BelowTransitive();
      Page2Steps();
      ChainBelow(PAGE2_RESERVED, Page2Below, g, h);
    }
  }


  /**
   * Feature pages accepted for one version are accepted for every later
   * version, provided they do not use the park state bit.
   */
  lemma CheckAcceptsLaterVersions(v: LmpVersion, w: LmpVersion, page0: Word, page2: Word)
    requires Release(v) <= Release(w)
    requires CheckSupportedFeatures(v, page0, page2)
    requires !Supports(page0, PARK_STATE)
    ensures CheckSupportedFeatures(w, page0, page2)
  {
    assert NoReservedBits(v, page0, page2) && MeetsFeatureRequirements(page0, page2);
    ReservedShrinks(v, w);
    var rv, rw := Reserved(v), Reserved(w);
    ClearOfSmallerMask(rw.page0, rv.page0, PARK_STATE, page0);
    ClearOfWithin(rw.page2, rv.page2, page2);
    assert NoReservedBits(w, page0, page2);
  }

  lemma ClearOfSmallerMask(small: Word, large: Word, except: Word, x: Word)
    requires Within(small & !except, large)
    requires large & x == 0 && x & except == 0
    ensures small & x == 0
  {
  }

  lemma ClearOfWithin(small: Word, large: Word, x: Word)
    requires Within(small, large)
    requires large & x == 0
    ensures small & x == 0
  {
  }

  /** Neither page sets a bit the version reserves. */
  predicate NoReservedBits(version: LmpVersion, page0: Word, page2: Word)
  {
    Reserved(version).page0 & page0 == 0 && Reserved(version).page2 & page2 == 0
  }

  /** CheckSupportedFeatures over the version and LMP feature pages 0 and 2. */
  function CheckSupportedFeatures(version: LmpVersion, page0: Word, page2: Word): (ok: bool)
    ensures ok <==> NoReservedBits(version, page0, page2) && MeetsFeatureRequirements(page0, page2)
  {
    if !NoReservedBits(version, page0, page2) then false
    else if !CheckTables35To38(page0, page2) then false
    else if !CheckTable39Synchronous(page0, page2) then false
    else CheckTable39Others(page0, page2)
  }

  /** The tests of Tables 3.5 (mandatory), 3.6 (forbidden), 3.7 (all or none) and 3.8 (at most one). */
  function CheckTables35To38(page0: Word, page2: Word): (ok: bool)
    ensures ok <==> Tables35To38Rows(page0, page2)
  {
    if !Supports(page0, ENCRYPTION) || !Supports(page0, SECURE_SIMPLE_PAIRING_CONTROLLER) || !Supports(page0, ENCAPSULATED_PDU) then false
    else if Supports(page0, BR_EDR_NOT_SUPPORTED) then false
    else if Supports(page0, SNIFF_MODE) != Supports(page0, SNIFF_SUBRATING) then false
    else if Supports(page0, BROADCAST_ENCRYPTION) && Supports(page2, COARSE_CLOCK_ADJUSTMENT) then false
    else true
  }

  /** The tests of the rows of Table 3.9 on role switch and the ACL, SCO and eSCO packet features. */
  function CheckTable39Synchronous(page0: Word, page2: Word): (ok: bool)
    ensures ok <==> Table39SynchronousRows(page0, page2)
  {
    if Supports(page0, ROLE_SWITCH) && !Supports(page0, SLOT_OFFSET) then false
    else if Supports(page0, HV2_PACKETS) && !Supports(page0, SCO_LINK) then false
    else if Supports(page0, HV3_PACKETS) && !Supports(page0, SCO_LINK) then false
    else if Supports(page0, M_LAW_LOG_SYNCHRONOUS_DATA) && !Supports(page0, SCO_LINK) && !Supports(page0, EXTENDED_SCO_LINK) then false
    else if Supports(page0, A_LAW_LOG_SYNCHRONOUS_DATA) && !Supports(page0, SCO_LINK) && !Supports(page0, EXTENDED_SCO_LINK) then false
    else if Supports(page0, CVSD_SYNCHRONOUS_DATA) && !Supports(page0, SCO_LINK) && !Supports(page0, EXTENDED_SCO_LINK) then false
    else if Supports(page0, TRANSPARENT_SYNCHRONOUS_DATA) && !Supports(page0, SCO_LINK) && !Supports(page0, EXTENDED_SCO_LINK) then false
    else if Supports(page0, ENHANCED_DATA_RATE_ACL_3_MB_S_MODE) && !Supports(page0, ENHANCED_DATA_RATE_ACL_2_MB_S_MODE) then false
    else if Supports(page0, EV4_PACKETS) && !Supports(page0, EXTENDED_SCO_LINK) then false
    else if Supports(page0, EV5_PACKETS) && !Supports(page0, EXTENDED_SCO_LINK) then false
    else if Supports(page0, AFH_CLASSIFICATION_PERIPHERAL) && !Supports(page0, AFH_CAPABLE_PERIPHERAL) then false
    else if Supports(page0, LMP_3_SLOT_ENHANCED_DATA_RATE_ACL_PACKETS) && !Supports(page0, ENHANCED_DATA_RATE_ACL_2_MB_S_MODE) then false
    else if Supports(page0, LMP_5_SLOT_ENHANCED_DATA_RATE_ACL_PACKETS) && !Supports(page0, ENHANCED_DATA_RATE_ACL_2_MB_S_MODE) then false
    else if Supports(page0, AFH_CLASSIFICATION_CENTRAL) && !Supports(page0, AFH_CAPABLE_CENTRAL) then false
    else if Supports(page0, ENHANCED_DATA_RATE_ESCO_2_MB_S_MODE) && !Supports(page0, EXTENDED_SCO_LINK) then false
    else if Supports(page0, ENHANCED_DATA_RATE_ESCO_3_MB_S_MODE) && !Supports(page0, ENHANCED_DATA_RATE_ESCO_2_MB_S_MODE) then false
    else if Supports(page0, LMP_3_SLOT_ENHANCED_DATA_RATE_ESCO_PACKETS) && !Supports(page0, ENHANCED_DATA_RATE_ESCO_2_MB_S_MODE) then false
    else true
  }

  /** The tests of the remaining rows of Table 3.9. */
  function CheckTable39Others(page0: Word, page2: Word): (ok: bool)
    ensures ok <==> Table39OtherRows(page0, page2)
  {
    if Supports(page0, EXTENDED_INQUIRY_RESPONSE) && !Supports(page0, RSSI_WITH_INQUIRY_RESULTS) then false
    else if Supports(page0, SIMULTANEOUS_LE_AND_BR_CONTROLLER) && !Supports(page0, LE_SUPPORTED_CONTROLLER) then false
    else if Supports(page0, ERRONEOUS_DATA_REPORTING) && !Supports(page0, SCO_LINK) && !Supports(page0, EXTENDED_SCO_LINK) then false
    else if Supports(page0, ENHANCED_POWER_CONTROL) && (!Supports(page0, POWER_CONTROL_REQUESTS) || !Supports(page0, POWER_CONTROL)) then false
    else if Supports(page2, CONNECTIONLESS_PERIPHERAL_BROADCAST_TRANSMITTER_OPERATION) && !Supports(page2, SYNCHRONIZATION_TRAIN) then false
    else if Supports(page2, CONNECTIONLESS_PERIPHERAL_BROADCAST_RECEIVER_OPERATION) && !Supports(page2, SYNCHRONIZATION_SCAN) then false
    else if Supports(page2, GENERALIZED_INTERLACED_SCAN) && !Supports(page0, INTERLACED_INQUIRY_SCAN) && !Supports(page0, INTERLACED_PAGE_SCAN) then false
    else if Supports(page2, COARSE_CLOCK_ADJUSTMENT) && (!Supports(page0, AFH_CAPABLE_PERIPHERAL) || !Supports(page0, AFH_CAPABLE_CENTRAL) || !Supports(page2, SYNCHRONIZATION_TRAIN) || !Supports(page2, SYNCHRONIZATION_SCAN)) then false
    else if Supports(page2, SECURE_CONNECTIONS_CONTROLLER_SUPPORT) && (!Supports(page0, PAUSE_ENCRYPTION) || !Supports(page2, PING)) then false
    else true
  }

  /**
   * The rows of Tables 3.5 to 3.9 for devices supporting BR/EDR, each stated
   * as the requirement the row expresses.
   */
  predicate MeetsFeatureRequirements(page0: Word, page2: Word)
  {
    Tables35To38Rows(page0, page2) && Table39SynchronousRows(page0, page2) && Table39OtherRows(page0, page2)
  }

  /**
   * Table 3.5: mandatory features; Table 3.6: forbidden features; Table 3.7:
   * all features of the row or none; Table 3.8: at most one feature of the row.
   */
  predicate Tables35To38Rows(page0: Word, page2: Word)
  {
    && Supports(page0, ENCRYPTION)
    && Supports(page0, SECURE_SIMPLE_PAIRING_CONTROLLER)
    && Supports(page0, ENCAPSULATED_PDU)
    && !Supports(page0, BR_EDR_NOT_SUPPORTED)
    && (Supports(page0, SNIFF_MODE) <==> Supports(page0, SNIFF_SUBRATING))
    && !(Supports(page0, BROADCAST_ENCRYPTION) && Supports(page2, COARSE_CLOCK_ADJUSTMENT))
  }

  /** Table 3.9 rows on role switch and the ACL, SCO and eSCO features: the first feature needs the second. */
  predicate Table39SynchronousRows(page0: Word, page2: Word)
  {
    && (Supports(page0, ROLE_SWITCH) ==> Supports(page0, SLOT_OFFSET))
    && (Supports(page0, HV2_PACKETS) ==> Supports(page0, SCO_LINK))
    && (Supports(page0, HV3_PACKETS) ==> Supports(page0, SCO_LINK))
    && (Supports(page0, M_LAW_LOG_SYNCHRONOUS_DATA) ==> Supports(page0, SCO_LINK) || Supports(page0, EXTENDED_SCO_LINK))
    && (Supports(page0, A_LAW_LOG_SYNCHRONOUS_DATA) ==> Supports(page0, SCO_LINK) || Supports(page0, EXTENDED_SCO_LINK))
    && (Supports(page0, CVSD_SYNCHRONOUS_DATA) ==> Supports(page0, SCO_LINK) || Supports(page0, EXTENDED_SCO_LINK))
    && (Supports(page0, TRANSPARENT_SYNCHRONOUS_DATA) ==> Supports(page0, SCO_LINK) || Supports(page0, EXTENDED_SCO_LINK))
    && (Supports(page0, ENHANCED_DATA_RATE_ACL_3_MB_S_MODE) ==> Supports(page0, ENHANCED_DATA_RATE_ACL_2_MB_S_MODE))
    && (Supports(page0, EV4_PACKETS) ==> Supports(page0, EXTENDED_SCO_LINK))
    && (Supports(page0, EV5_PACKETS) ==> Supports(page0, EXTENDED_SCO_LINK))
    && (Supports(page0, AFH_CLASSIFICATION_PERIPHERAL) ==> Supports(page0, AFH_CAPABLE_PERIPHERAL))
    && (Supports(page0, LMP_3_SLOT_ENHANCED_DATA_RATE_ACL_PACKETS) ==> Supports(page0, ENHANCED_DATA_RATE_ACL_2_MB_S_MODE))
    && (Supports(page0, LMP_5_SLOT_ENHANCED_DATA_RATE_ACL_PACKETS) ==> Supports(page0, ENHANCED_DATA_RATE_ACL_2_MB_S_MODE))
    && (Supports(page0, AFH_CLASSIFICATION_CENTRAL) ==> Supports(page0, AFH_CAPABLE_CENTRAL))
    && (Supports(page0, ENHANCED_DATA_RATE_ESCO_2_MB_S_MODE) ==> Supports(page0, EXTENDED_SCO_LINK))
    && (Supports(page0, ENHANCED_DATA_RATE_ESCO_3_MB_S_MODE) ==> Supports(page0, ENHANCED_DATA_RATE_ESCO_2_MB_S_MODE))
    && (Supports(page0, LMP_3_SLOT_ENHANCED_DATA_RATE_ESCO_PACKETS) ==> Supports(page0, ENHANCED_DATA_RATE_ESCO_2_MB_S_MODE))
  }

  /** The remaining rows of Table 3.9. */
  predicate Table39OtherRows(page0: Word, page2: Word)
  {
    && (Supports(page0, EXTENDED_INQUIRY_RESPONSE) ==> Supports(page0, RSSI_WITH_INQUIRY_RESULTS))
    && (Supports(page0, SIMULTANEOUS_LE_AND_BR_CONTROLLER) ==> Supports(page0, LE_SUPPORTED_CONTROLLER))
    && (Supports(page0, ERRONEOUS_DATA_REPORTING) ==> Supports(page0, SCO_LINK) || Supports(page0, EXTENDED_SCO_LINK))
    && (Supports(page0, ENHANCED_POWER_CONTROL) ==> Supports(page0, POWER_CONTROL_REQUESTS))
    && (Supports(page0, ENHANCED_POWER_CONTROL) ==> Supports(page0, POWER_CONTROL))
    && (Supports(page2, CONNECTIONLESS_PERIPHERAL_BROADCAST_TRANSMITTER_OPERATION) ==> Supports(page2, SYNCHRONIZATION_TRAIN))
    && (Supports(page2, CONNECTIONLESS_PERIPHERAL_BROADCAST_RECEIVER_OPERATION) ==> Supports(page2, SYNCHRONIZATION_SCAN))
    && (Supports(page2, GENERALIZED_INTERLACED_SCAN) ==> Supports(page0, INTERLACED_INQUIRY_SCAN) || Supports(page0, INTERLACED_PAGE_SCAN))
    && (Supports(page2, COARSE_CLOCK_ADJUSTMENT) ==> Supports(page0, AFH_CAPABLE_PERIPHERAL))
    && (Supports(page2, COARSE_CLOCK_ADJUSTMENT) ==> Supports(page0, AFH_CAPABLE_CENTRAL))
    && (Supports(page2, COARSE_CLOCK_ADJUSTMENT) ==> Supports(page2, SYNCHRONIZATION_TRAIN))
    && (Supports(page2, COARSE_CLOCK_ADJUSTMENT) ==> Supports(page2, SYNCHRONIZATION_SCAN))
    && (Supports(page2, SECURE_CONNECTIONS_CONTROLLER_SUPPORT) ==> Supports(page0, PAUSE_ENCRYPTION))
    && (Supports(page2, SECURE_CONNECTIONS_CONTROLLER_SUPPORT) ==> Supports(page2, PING))
  }
}
