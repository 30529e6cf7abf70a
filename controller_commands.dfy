/**
 * The supported-commands bitmap of the RootCanal controller and the
 * command requirement rules it is validated against
 * (ControllerProperties::SupportedCommands and CheckSupportedCommands).
 *
 * A command is identified by its opcode index: the command table of the
 * Bluetooth Core Specification, Vol 4, Part E, section 6.27 numbers octet
 * `index / 10`, bit `index % 10`. The numeric indices themselves are not part
 * of this model and are taken as inputs.
 */
module ControllerCommands {
  import opened ControllerFeatures

  /** The bitmap has 64 octets. */
  const COMMAND_OCTETS: nat := 64

  /** Opcode indices whose octet lies inside the bitmap. */
  predicate ValidIndices(indices: seq<nat>)
  {
    forall i | 0 <= i < |indices| :: indices[i] / 10 < COMMAND_OCTETS
  }

  function Bit8(b: nat): bv8
    requires b < 8
  {
    (1 as bv8) << b
  }

  predicate HasBit8(octet: bv8, b: nat)
    requires b < 8
  {
    octet & Bit8(b) != 0
  }

  /**
   * `value[index / 10] |= 1U << (index % 10)`: the shifted bit is truncated to
   * the octet, so indices with `index % 10` of 8 or 9 set nothing.
   */
  function SetCommandBit(value: seq<bv8>, index: nat): seq<bv8>
    requires |value| == COMMAND_OCTETS && index / 10 < COMMAND_OCTETS
  {
    if index % 10 < 8 then value[index / 10 := value[index / 10] | Bit8(index % 10)] else value
  }

  /** The bitmap built from an all-zero array by setting the bit of each index in turn. */
  function PackCommands(indices: seq<nat>): (value: seq<bv8>)
    requires ValidIndices(indices)
    ensures |value| == COMMAND_OCTETS
  {
    if |indices| == 0 then seq(COMMAND_OCTETS, _ => 0)
    else SetCommandBit(PackCommands(indices[..|indices| - 1]), indices[|indices| - 1])
  }

  /** SupportedCommands: the loop over the supported opcode indices. */
  method SupportedCommands(indices: seq<nat>) returns (value: seq<bv8>)
    requires ValidIndices(indices)
    ensures value == PackCommands(indices)
  {
    var octets := new bv8[COMMAND_OCTETS](_ => 0);
    assert octets[..] == PackCommands([]);
    var n := 0;
    while n < |indices|
      invariant 0 <= n <= |indices|
      invariant octets.Length == COMMAND_OCTETS
      invariant octets[..] == PackCommands(indices[..n])
    {
      assert indices[..n + 1][..n] == indices[..n];
      var index := indices[n];
      if index % 10 < 8 {
        octets[index / 10] := octets[index / 10] | Bit8(index % 10);
      }
      n := n + 1;
    }
    assert indices[..n] == indices;
    value := octets[..];
  }

  /** SupportsCommand: bit `index % 10` of octet `index / 10`, read through an unsigned int. */
  predicate SupportsCommand(commands: seq<bv8>, index: nat)
    requires |commands| == COMMAND_OCTETS && index / 10 < COMMAND_OCTETS
  {
    index % 10 < 8 && HasBit8(commands[index / 10], index % 10)
  }

  lemma OrBit8(x: bv8, b: nat, c: nat)
    requires b < 8 && c < 8
    ensures HasBit8(x | Bit8(b), c) <==> HasBit8(x, c) || b == c
  {
    DistinctBits8(b, c);
    OrMeets8(x, Bit8(b), Bit8(c));
  }

  /** Two single-bit masks overlap exactly when they name the same bit. */
  lemma DistinctBits8(b: nat, c: nat)
    requires b < 8 && c < 8
    ensures Bit8(b) & Bit8(c) != 0 <==> b == c
  {
  }

  lemma OrMeets8(x: bv8, y: bv8, z: bv8)
    ensures (x | y) & z != 0 <==> x & z != 0 || y & z != 0
  {
  }

  lemma ZeroBit8(c: nat)
    requires c < 8
    ensures !HasBit8(0, c)
  {
  }

  /**
   * Bit `b` of octet `o` is set exactly when some listed index names that
   * octet and bit; in particular the empty list gives the all-zero bitmap.
   */
  lemma {:induction false} PackCommandsBits(indices: seq<nat>, o: nat, b: nat)
    requires ValidIndices(indices) && o < COMMAND_OCTETS && b < 8
    ensures HasBit8(PackCommands(indices)[o], b) <==>
              exists i | 0 <= i < |indices| :: indices[i] / 10 == o && indices[i] % 10 == b
  {
    if |indices| == 0 {
      ZeroBit8(b);
    } else {
      var n := |indices| - 1;
      var init := indices[..n];
      var last := indices[n];
      PackCommandsBits(init, o, b);
      assert forall i | 0 <= i < n :: init[i] == indices[i];
      var before := PackCommands(init);
      if last % 10 < 8 && last / 10 == o {
        OrBit8(before[o], last % 10, b);
      }
    }
  }

  /** A command reads back as supported exactly when it was listed (and its bit fits the octet). */
  lemma SupportsPackedCommand(indices: seq<nat>, index: nat)
    requires ValidIndices(indices) && index / 10 < COMMAND_OCTETS
    ensures SupportsCommand(PackCommands(indices), index) <==> index % 10 < 8 && index in indices
  {
    if index % 10 < 8 {
      PackCommandsBits(indices, index / 10, index % 10);
      if index in indices {
        var i :| 0 <= i < |indices| && indices[i] == index;
        assert indices[i] / 10 == index / 10 && indices[i] % 10 == index % 10;
      }
    }
  }

  /** Requirement of a command for one transport (Vol 4, Part E, section 3). */
  datatype Requirement = Mandatory | Optional | Excluded

  function Strength(r: Requirement): nat
  {
    match r
    case Excluded => 0
    case Optional => 1
    case Mandatory => 2
  }

  /** What a requirement allows of a controller that does or does not support the command. */
  predicate Permits(r: Requirement, commandSupported: bool)
  {
    match r
    case Mandatory => commandSupported
    case Optional => true
    case Excluded => !commandSupported
  }

  /** mandatory_or_excluded: "Mandatory if the condition holds, otherwise excluded". */
  function MandatoryOrExcluded(cond: bool): (r: Requirement)
    ensures r != Optional
    ensures r == Mandatory <==> cond
  {
    if cond then Mandatory else Excluded
  }

  /** mandatory_or_optional: "Mandatory if the condition holds, otherwise optional". */
  function MandatoryOrOptional(cond: bool): (r: Requirement)
    ensures r != Excluded
    ensures r == Mandatory <==> cond
  {
    if cond then Mandatory else Optional
  }

  /** optional_or_excluded as written: it yields Mandatory when the condition holds. */
  function OptionalOrExcludedAsWritten(cond: bool): (r: Requirement)
    ensures r != Optional
    ensures r == Mandatory <==> cond
  {
    if cond then Mandatory else Excluded
  }

  /** optional_or_excluded as the conditions it encodes read: "Optional if the condition holds, otherwise excluded". */
  function OptionalOrExcluded(cond: bool): (r: Requirement)
    ensures r != Mandatory
    ensures r == Optional <==> cond
  {
    if cond then Optional else Excluded
  }

  /** mandatory_or_optional_or_excluded: the first condition makes it mandatory, else the second optional. */
  function MandatoryOrOptionalOrExcluded(cond1: bool, cond2: bool): (r: Requirement)
    ensures r == Mandatory <==> cond1
    ensures r == Optional <==> !cond1 && cond2
  {
    if cond1 then Mandatory else if cond2 then Optional else Excluded
  }

  /**
   * The requirement of a command for the controller: that of the only
   * supported transport, or the strongest of the two when both are supported.
   */
  function CommandRequirement(brSupported: bool, brRequirement: Requirement,
                              leSupported: bool, leRequirement: Requirement): (r: Requirement)
    ensures !brSupported ==> r == leRequirement
    ensures brSupported && !leSupported ==> r == brRequirement
    ensures brSupported && leSupported ==>
              (r == brRequirement || r == leRequirement)
              && Strength(r) >= Strength(brRequirement) && Strength(r) >= Strength(leRequirement)
  {
    if !brSupported then leRequirement
    else if !leSupported then brRequirement
    else if leRequirement == Mandatory || brRequirement == Mandatory then Mandatory
    else if leRequirement == Optional || brRequirement == Optional then Optional
    else assert brRequirement == Excluded; Excluded
  }

  /** check_command_requirement: false exactly when the combined requirement forbids the command's support status. */
  function CheckCommandRequirement(brSupported: bool, brRequirement: Requirement,
                                   leSupported: bool, leRequirement: Requirement,
                                   commandSupported: bool): (ok: bool)
    ensures ok == Permits(CommandRequirement(brSupported, brRequirement, leSupported, leRequirement), commandSupported)
  {
    var requirement := CommandRequirement(brSupported, brRequirement, leSupported, leRequirement);
    if requirement == Mandatory && !commandSupported then false
    else if requirement == Excluded && commandSupported then false
    else true
  }

  /** With both transports supported, the two requirements play symmetric roles. */
  lemma CommandRequirementSymmetric(brRequirement: Requirement, leRequirement: Requirement)
    ensures CommandRequirement(true, brRequirement, true, leRequirement)
         == CommandRequirement(true, leRequirement, true, brRequirement)
  {
  }

  /**
   * A row whose requirements are each optional or excluded never requires the
   * command: leaving it out is accepted.
   */
  lemma OptionalOrExcludedNeverRequires(brSupported: bool, brCond: bool, leSupported: bool, leCond: bool)
    ensures CheckCommandRequirement(brSupported, OptionalOrExcluded(brCond), leSupported, OptionalOrExcluded(leCond), false)
  {
  }

  /**
   * As written, a row using optional_or_excluded with its condition true (C135
   * for a controller with SCO links) rejects a controller that leaves the
   * optional command out.
   */
  lemma OptionalOrExcludedAsWrittenRejectsOptionalCommand()
    ensures !CheckCommandRequirement(true, OptionalOrExcludedAsWritten(true), true, Excluded, false)
    ensures CheckCommandRequirement(true, OptionalOrExcluded(true), true, Excluded, false)
  {
  }

  /** One check_command_ row: an opcode index and its BR/EDR and LE requirements. */
  datatype CommandRow = CommandRow(opCode: nat, brRequirement: Requirement, leRequirement: Requirement)

  predicate RowsInRange(rows: seq<CommandRow>)
  {
    forall i | 0 <= i < |rows| :: rows[i].opCode / 10 < COMMAND_OCTETS
  }

  predicate RowPasses(brSupported: bool, leSupported: bool, commands: seq<bv8>, row: CommandRow)
    requires |commands| == COMMAND_OCTETS && row.opCode / 10 < COMMAND_OCTETS
  {
    CheckCommandRequirement(brSupported, row.brRequirement, leSupported, row.leRequirement,
                            SupportsCommand(commands, row.opCode))
  }

  /** The rows whose validation fails, in table order: the ones CheckSupportedCommands logs. */
  function FailedRows(brSupported: bool, leSupported: bool, commands: seq<bv8>, rows: seq<CommandRow>): (failed: seq<CommandRow>)
    requires |commands| == COMMAND_OCTETS && RowsInRange(rows)
    ensures |failed| <= |rows|
    ensures forall row :: row in failed <==> row in rows && !RowPasses(brSupported, leSupported, commands, row)
  {
    if |rows| == 0 then []
    else
      var init := FailedRows(brSupported, leSupported, commands, rows[..|rows| - 1]);
      var last := rows[|rows| - 1];
      assert forall row :: row in rows <==> row in rows[..|rows| - 1] || row == last;
      if RowPasses(brSupported, leSupported, commands, last) then init else init + [last]
  }

  /** The outcome of CheckSupportedCommands: its result and the rows it logs. */
  datatype CommandCheck = CommandCheck(result: bool, logged: seq<CommandRow>)

  /** CheckSupportedCommands logs every failing row and returns true whatever it found. */
  function CheckSupportedCommands(brSupported: bool, leSupported: bool, commands: seq<bv8>, rows: seq<CommandRow>): (r: CommandCheck)
    requires |commands| == COMMAND_OCTETS && RowsInRange(rows)
    ensures r.result
    ensures forall row :: row in r.logged <==> row in rows && !RowPasses(brSupported, leSupported, commands, row)
  {
    CommandCheck(true, FailedRows(brSupported, leSupported, commands, rows))
  }

  /** The opcode indices of the representative rows below. */
  datatype SampleOpCodes = SampleOpCodes(
    disconnect: nat,
    acceptSynchronousConnection: nat,
    enhancedSetupSynchronousConnection: nat,
    leAddDeviceToResolvingList: nat,
    leReadLocalResolvableAddress: nat,
    writeDefaultErroneousDataReporting: nat,
    writeVoiceSetting: nat)

  /**
   * Representative rows of the command table with the conditions they use:
   * C3 (connection state, always supported), C9 and C10 (LL privacy),
   * C134 and C135 (SCO or eSCO links). C10 and C135 are built with
   * optional_or_excluded as written, so they are Mandatory when their
   * condition holds.
   */
  function SampleRows(page0: Word, leFeatures: Word, ops: SampleOpCodes): (rows: seq<CommandRow>)
    ensures |rows| == 7
  {
    var c3 := Mandatory;
    var c9 := MandatoryOrExcluded(Supports(leFeatures, LL_PRIVACY));
    var c10 := OptionalOrExcludedAsWritten(Supports(leFeatures, LL_PRIVACY));
    var sco := Supports(page0, SCO_LINK) || Supports(page0, EXTENDED_SCO_LINK);
    var c134 := MandatoryOrExcluded(sco);
    var c135 := OptionalOrExcludedAsWritten(sco);
    [ CommandRow(ops.disconnect, Mandatory, c3),
      CommandRow(ops.acceptSynchronousConnection, c134, Excluded),
      CommandRow(ops.enhancedSetupSynchronousConnection, c135, Excluded),
      CommandRow(ops.leAddDeviceToResolvingList, Excluded, c9),
      CommandRow(ops.leReadLocalResolvableAddress, Excluded, c10),
      CommandRow(ops.writeDefaultErroneousDataReporting, c135, Excluded),
      CommandRow(ops.writeVoiceSetting, c134, Excluded) ]
  }

  /**
   * A BR/EDR-only controller without SCO or eSCO links that lists
   * WRITE_VOICE_SETTING has that row logged as failing.
   */
  lemma VoiceSettingExcludedWithoutSco(page0: Word, leFeatures: Word, ops: SampleOpCodes, commands: seq<bv8>)
    requires |commands| == COMMAND_OCTETS
    requires ops.writeVoiceSetting / 10 < COMMAND_OCTETS
    requires RowsInRange(SampleRows(page0, leFeatures, ops))
    requires !Supports(page0, SCO_LINK) && !Supports(page0, EXTENDED_SCO_LINK)
    requires SupportsCommand(commands, ops.writeVoiceSetting)
    ensures CommandRow(ops.writeVoiceSetting, Excluded, Excluded)
              in CheckSupportedCommands(true, false, commands, SampleRows(page0, leFeatures, ops)).logged
  {
    var rows := SampleRows(page0, leFeatures, ops);
    assert rows[6] == CommandRow(ops.writeVoiceSetting, Excluded, Excluded);
  }

  /**
   * As written, a BR/EDR-only controller with SCO links that leaves
   * WRITE_DEFAULT_ERRONEOUS_DATA_REPORTING out (a C135 command) has that row
   * logged as failing, although C135 only makes the command optional.
   */
  lemma ErroneousDataReportingRequiredWithSco(page0: Word, leFeatures: Word, ops: SampleOpCodes, commands: seq<bv8>)
    requires |commands| == COMMAND_OCTETS
    requires ops.writeDefaultErroneousDataReporting / 10 < COMMAND_OCTETS
    requires RowsInRange(SampleRows(page0, leFeatures, ops))
    requires Supports(page0, SCO_LINK)
    requires !SupportsCommand(commands, ops.writeDefaultErroneousDataReporting)
    ensures CommandRow(ops.writeDefaultErroneousDataReporting, Mandatory, Excluded)
              in CheckSupportedCommands(true, false, commands, SampleRows(page0, leFeatures, ops)).logged
  {
    var rows := SampleRows(page0, leFeatures, ops);
    assert rows[5] == CommandRow(ops.writeDefaultErroneousDataReporting, Mandatory, Excluded);
  }
}
