/** The commands of a firmware download, as the controller reads them. */
module PatchWire {
  import opened Arith
  import opened LittleEndian

  /** A command packet: the type 1, the opcode, the length of the parameters, and these. */
  ghost predicate IsCommand(cmd: seq<Byte>, opcode: nat) {
    |cmd| >= 4 && cmd[0] == 1 && Read(cmd, 1, 2) == opcode && cmd[3] == |cmd| - 4
  }

  /** The register at addr is to be set to value. */
  ghost predicate IsRegisterWrite(cmd: seq<Byte>, addr: nat, value: nat) {
    && IsCommand(cmd, 0xfc62) && |cmd| == 13
    && cmd[4] == 0x21 && Read(cmd, 5, 4) == addr && Read(cmd, 9, 4) == value
  }

  /** A fragment of a patch. */
  ghost predicate IsFragment(cmd: seq<Byte>, index: Byte, data: seq<Byte>) {
    IsCommand(cmd, 0xfc20) && |cmd| == 5 + |data| && cmd[4] == index && cmd[5..] == data
  }

  lemma ReadTwo(cmd: seq<Byte>, p: nat)
    requires p + 2 <= |cmd|
    ensures Read(cmd, p, 2) == cmd[p] as int + 256 * cmd[p + 1] as int
  {
    var s := cmd[p..p + 2];
    assert s[1..] == [cmd[p + 1]] && s[1..][1..] == [];
    assert LeVal(s[1..]) == cmd[p + 1] + 256 * LeVal([]);
  }
}
