/** The index byte of a fragment, which both versions of the download use. */
module PatchIndex {
  import opened Arith

  /** The index byte before the end mark: 0, 1, ..., 0x7f, 1, 2, ... */
  function Index(i: nat): Byte {
    if i >= 0x80 then (i - 0x80) % 0x7f + 1 else i % 0x80
  }

  lemma IndexSuccessor(i: nat)
    ensures Index(0) == 0 && Index(i) < 0x80
    ensures Index(i + 1) == if Index(i) == 0x7f then 1 else Index(i) + 1
  {
    if i >= 0x80 {
      var q, r := (i - 0x80) / 0x7f, (i - 0x80) % 0x7f;
      if r == 0x7e {
        ModShift(0, q + 1, 0x7f);
      } else {
        ModShift(r + 1, q, 0x7f);
        ModSmall(r + 1, 0x7f);
      }
    }
  }

  /** What is used of a configuration file, whose length is kept in 16 bits. */
  function ConfigOf(file: seq<Byte>): (c: seq<Byte>)
    ensures |c| < 0x1_0000 && (|file| < 0x1_0000 ==> c == file)
  {
    file[..|file| % 0x1_0000]
  }
}
