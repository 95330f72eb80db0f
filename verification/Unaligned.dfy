/** Words at any address, by two accesses to the aligned words around them. */
module Unaligned {
  import opened Word
  import opened Instruction
  import opened Isa
  import opened MemoryRuns
  import MemoryImage
  import opened Execution

  // ---------- Bytes of words ----------

  lemma LoadedByte(m: Memory, a: int, j: nat)
    requires j < 4
    ensures ByteOf(LoadBytes(m, a, Word4), j) == ByteAt(m, a + j)
  {
    hide ByteAt;
    MemoryImage.BytesSplit(ByteAt(m, a), ByteAt(m, a + 1), ByteAt(m, a + 2), ByteAt(m, a + 3), j);
  }

  /** The pieces of a word at each byte boundary. */
  lemma Cuts(b0: Byte, b1: Byte, b2: Byte, b3: Byte, w: Word)
    requires w == FromBytes(b0, b1, b2, b3)
    ensures w % 0x100 == b0 && w % 0x1_0000 == b0 + 0x100 * b1 && w % 0x100_0000 == b0 + 0x100 * b1 + 0x1_0000 * b2
    ensures w / 0x100_0000 == b3 && w / 0x1_0000 == b2 + 0x100 * b3 && w / 0x100 == b1 + 0x100 * b2 + 0x1_0000 * b3
  {
  }

  /** SWL puts the high bytes of the register below and at place k, SWR its low bytes from place k on. */
  lemma StoreLeftBytes(w: Word, v: Word, k: nat, j: nat)
    requires k < 4 && j < 4
    ensures ByteOf(StoreLeft(w, v, k), j) == if j <= k then ByteOf(v, 3 - k + j) else ByteOf(w, j)
  {
    var w0, w1, w2, w3 := ByteOf(w, 0), ByteOf(w, 1), ByteOf(w, 2), ByteOf(w, 3);
    var v0, v1, v2, v3 := ByteOf(v, 0), ByteOf(v, 1), ByteOf(v, 2), ByteOf(v, 3);
    MemoryImage.BytesJoin(w);
    MemoryImage.BytesJoin(v);
    Cuts(w0, w1, w2, w3, w);
    Cuts(v0, v1, v2, v3, v);
    LeftParts(w, v, k, w0, w1, w2, w3, v0, v1, v2, v3);
    if k == 0 { MemoryImage.BytesSplit(v3, w1, w2, w3, j); }
    else if k == 1 { MemoryImage.BytesSplit(v2, v3, w2, w3, j); }
    else if k == 2 { MemoryImage.BytesSplit(v1, v2, v3, w3, j); }
  }

  lemma LeftParts(w: Word, v: Word, k: nat, w0: Byte, w1: Byte, w2: Byte, w3: Byte, v0: Byte, v1: Byte, v2: Byte,
      v3: Byte)
    requires k < 4 && w == FromBytes(w0, w1, w2, w3) && v == FromBytes(v0, v1, v2, v3)
    ensures StoreLeft(w, v, k) == if k == 0 then FromBytes(v3, w1, w2, w3) else if k == 1 then FromBytes(v2, v3, w2, w3)
                                  else if k == 2 then FromBytes(v1, v2, v3, w3) else v
  {
    Cuts(w0, w1, w2, w3, w);
    Cuts(v0, v1, v2, v3, v);
  }

  lemma StoreRightBytes(w: Word, v: Word, k: nat, j: nat)
    requires k < 4 && j < 4
    ensures ByteOf(StoreRight(w, v, k), j) == if j >= k then ByteOf(v, j - k) else ByteOf(w, j)
  {
    var w0, w1, w2, w3 := ByteOf(w, 0), ByteOf(w, 1), ByteOf(w, 2), ByteOf(w, 3);
    var v0, v1, v2, v3 := ByteOf(v, 0), ByteOf(v, 1), ByteOf(v, 2), ByteOf(v, 3);
    MemoryImage.BytesJoin(w);
    MemoryImage.BytesJoin(v);
    RightParts(w, v, k, w0, w1, w2, w3, v0, v1, v2, v3);
    if k == 1 { MemoryImage.BytesSplit(w0, v0, v1, v2, j); }
    else if k == 2 { MemoryImage.BytesSplit(w0, w1, v0, v1, j); }
    else if k == 3 { MemoryImage.BytesSplit(w0, w1, w2, v0, j); }
  }

  lemma RightParts(w: Word, v: Word, k: nat, w0: Byte, w1: Byte, w2: Byte, w3: Byte, v0: Byte, v1: Byte, v2: Byte,
      v3: Byte)
    requires k < 4 && w == FromBytes(w0, w1, w2, w3) && v == FromBytes(v0, v1, v2, v3)
    ensures StoreRight(w, v, k) == if k == 0 then v else if k == 1 then FromBytes(w0, v0, v1, v2)
                                   else if k == 2 then FromBytes(w0, w1, v0, v1) else FromBytes(w0, w1, w2, v0)
  {
    Cuts(w0, w1, w2, w3, w);
    Cuts(v0, v1, v2, v3, v);
  }

  /** LWL fills the register from the top down with the bytes from place k down, LWR from the bottom up
      with those from place k up; the other bytes of the register stay. */
  lemma MergeLeftBytes(w: Word, v: Word, k: nat, j: nat)
    requires k < 4 && j < 4
    ensures ByteOf(MergeLeft(w, v, k), j) == if j + k >= 3 then ByteOf(w, j + k - 3) else ByteOf(v, j)
  {
    hide ByteOf, MergeLeft, FromBytes;
    var w0, w1, w2, w3 := ByteOf(w, 0), ByteOf(w, 1), ByteOf(w, 2), ByteOf(w, 3);
    var v0, v1, v2, v3 := ByteOf(v, 0), ByteOf(v, 1), ByteOf(v, 2), ByteOf(v, 3);
    MemoryImage.BytesJoin(w);
    MemoryImage.BytesJoin(v);
    MergedLeft(w, v, k, w0, w1, w2, w3, v0, v1, v2, v3);
    if k == 0 { MemoryImage.BytesSplit(v0, v1, v2, w0, j); }
    else if k == 1 { MemoryImage.BytesSplit(v0, v1, w0, w1, j); }
    else if k == 2 { MemoryImage.BytesSplit(v0, w0, w1, w2, j); }
  }

  lemma MergedLeft(w: Word, v: Word, k: nat, w0: Byte, w1: Byte, w2: Byte, w3: Byte, v0: Byte, v1: Byte, v2: Byte,
      v3: Byte)
    requires k < 4 && w == FromBytes(w0, w1, w2, w3) && v == FromBytes(v0, v1, v2, v3)
    ensures MergeLeft(w, v, k) == if k == 0 then FromBytes(v0, v1, v2, w0) else if k == 1 then FromBytes(v0, v1, w0, w1)
                                  else if k == 2 then FromBytes(v0, w0, w1, w2) else w
  {
    Cuts(w0, w1, w2, w3, w);
    Cuts(v0, v1, v2, v3, v);
  }

  lemma MergeRightBytes(w: Word, v: Word, k: nat, j: nat)
    requires k < 4 && j < 4
    ensures ByteOf(MergeRight(w, v, k), j) == if j + k <= 3 then ByteOf(w, j + k) else ByteOf(v, j)
  {
    hide ByteOf, MergeRight, FromBytes;
    var w0, w1, w2, w3 := ByteOf(w, 0), ByteOf(w, 1), ByteOf(w, 2), ByteOf(w, 3);
    var v0, v1, v2, v3 := ByteOf(v, 0), ByteOf(v, 1), ByteOf(v, 2), ByteOf(v, 3);
    MemoryImage.BytesJoin(w);
    MemoryImage.BytesJoin(v);
    MergedRight(w, v, k, w0, w1, w2, w3, v0, v1, v2, v3);
    if k == 1 { MemoryImage.BytesSplit(w1, w2, w3, v3, j); }
    else if k == 2 { MemoryImage.BytesSplit(w2, w3, v2, v3, j); }
    else if k == 3 { MemoryImage.BytesSplit(w3, v1, v2, v3, j); }
  }

  lemma MergedRight(w: Word, v: Word, k: nat, w0: Byte, w1: Byte, w2: Byte, w3: Byte, v0: Byte, v1: Byte, v2: Byte,
      v3: Byte)
    requires k < 4 && w == FromBytes(w0, w1, w2, w3) && v == FromBytes(v0, v1, v2, v3)
    ensures MergeRight(w, v, k) == if k == 0 then w else if k == 1 then FromBytes(w1, w2, w3, v3)
                                   else if k == 2 then FromBytes(w2, w3, v2, v3) else FromBytes(w3, v1, v2, v3)
  {
    Cuts(w0, w1, w2, w3, w);
    Cuts(v0, v1, v2, v3, v);
  }

  /** LWL and LWR, for the two words that a word at place k overlaps. */
  lemma MergeBoth(lo: Word, hi: Word, v: Word, k: nat)
    requires k < 4
    ensures MergeRight(lo, MergeLeft(if k == 0 then lo else hi, v, if k == 0 then 3 else k - 1), k) ==
            if k == 0 then lo
            else if k == 1 then FromBytes(ByteOf(lo, 1), ByteOf(lo, 2), ByteOf(lo, 3), ByteOf(hi, 0))
            else if k == 2 then FromBytes(ByteOf(lo, 2), ByteOf(lo, 3), ByteOf(hi, 0), ByteOf(hi, 1))
            else FromBytes(ByteOf(lo, 3), ByteOf(hi, 0), ByteOf(hi, 1), ByteOf(hi, 2))
  {
    MemoryImage.BytesJoin(lo);
    MemoryImage.BytesJoin(hi);
    Cuts(ByteOf(lo, 0), ByteOf(lo, 1), ByteOf(lo, 2), ByteOf(lo, 3), lo);
    Cuts(ByteOf(hi, 0), ByteOf(hi, 1), ByteOf(hi, 2), ByteOf(hi, 3), hi);
    if k != 0 { MergedHigh(hi, v, k); }
  }

  lemma MergedHigh(hi: Word, v: Word, k: nat)
    requires 0 < k < 4
    ensures var m := MergeLeft(hi, v, k - 1);
            if k == 1 then m / 0x100_0000 == hi % 0x100
            else if k == 2 then m / 0x1_0000 == hi % 0x1_0000
            else m / 0x100 == hi % 0x100_0000
  {
  }

  // ---------- One access to the word around an address ----------

  function WordOf(ea: Word): Word { ea - ea % 4 }

  /** The byte at b after storing w in the word at a. */
  ghost predicate WordStored(t: Sys, s: Sys, a: Word, w: Word) {
    t == s.(mem := t.mem) && ValidMemory(t.mem) && t.mem.text == s.mem.text &&
    forall b: int :: ByteAt(t.mem, b) == Patch(a, Word4, w, b, ByteAt(s.mem, b))
  }

  lemma StoresWord(op: Op, a: Word, k: nat, v: Word, s: Sys)
    requires (op.SWL? || op.SWR?) && k < 4 && a % 4 == 0 && ValidMemory(s.mem) && Reachable(s.mem, a, Word4)
    ensures var x := LoadBytes(s.mem, a, Word4);
            StoreUnaligned(op, a, k, v, s).Some? &&
            WordStored(StoreUnaligned(op, a, k, v, s).value, s, a, if op.SWL? then StoreLeft(x, v, k) else StoreRight(x, v, k))
  {
    hide ReadMem, WriteMem, LoadBytes, StoreLeft, StoreRight, ByteAt, Patch, Reachable, ValidMemory;
    ReadsBytes(s, a, Word4);
    WordExtends(LoadBytes(s.mem, a, Word4));
    var t := ReadMem(s, a, Word4).sys;
    StillReachable(t.mem, a);
    WritesBytes(t, a, Word4, if op.SWL? then StoreLeft(LoadBytes(s.mem, a, Word4), v, k) else StoreRight(LoadBytes(s.mem, a, Word4), v, k));
    SameBytes(t.mem, s.mem);
  }

  lemma WordExtends(w: Word)
    ensures SignExtend(w, Word4) == w
  {
  }

  lemma StillReachable(m: Memory, a: Word)
    requires ValidMemory(m) && Mapped(m, a) && a % 4 == 0
    ensures Reachable(m, a, Word4)
  {
    Disjoint(m, a);
  }

  lemma SameBytes(m: Memory, g: Memory)
    requires m.bytes == g.bytes
    ensures forall b: int :: ByteAt(m, b) == ByteAt(g, b)
  {
  }

  predicate LeftStored(m: Memory, g: Memory, ea: Word, v: Word, b: int) {
    ByteAt(g, b) == if WordOf(ea) <= b <= ea then ByteOf(v, 3 - (ea - b)) else ByteAt(m, b)
  }

  predicate RightStored(m: Memory, g: Memory, ea: Word, v: Word, b: int) {
    ByteAt(g, b) == if ea <= b < WordOf(ea) + 4 then ByteOf(v, b - ea) else ByteAt(m, b)
  }

  predicate WholeStored(m: Memory, g: Memory, a: Word, v: Word, b: int) {
    ByteAt(g, b) == if a <= b < a + 4 then ByteOf(v, b - a) else ByteAt(m, b)
  }

  /** SWL at ea: the bytes up to ea, in its word, are the high bytes of v, the topmost at ea. */
  lemma StoreLeftAt(ea: Word, v: Word, s: Sys)
    requires ValidMemory(s.mem) && Reachable(s.mem, WordOf(ea), Word4)
    ensures ExecStore(SWL, ea, v, s).Some?
    ensures var t := ExecStore(SWL, ea, v, s).value;
            t == s.(mem := t.mem) && ValidMemory(t.mem) && t.mem.text == s.mem.text &&
            forall b: int :: LeftStored(s.mem, t.mem, ea, v, b)
  {
    hide StoreUnaligned, StoreLeft, ByteOf, ByteAt, LoadBytes, Reachable, ValidMemory;
    StoresWord(SWL, WordOf(ea), ea % 4, v, s);
    var x, t := LoadBytes(s.mem, WordOf(ea), Word4), ExecStore(SWL, ea, v, s).value;
    forall b: int
      ensures LeftStored(s.mem, t.mem, ea, v, b)
    {
      if WordOf(ea) <= b < WordOf(ea) + 4 {
        StoreLeftBytes(x, v, ea % 4, b - WordOf(ea));
        LoadedByte(s.mem, WordOf(ea), b - WordOf(ea));
      }
    }
  }

  /** SWR at ea: the bytes from ea on, in its word, are the low bytes of v, the lowest at ea. */
  lemma StoreRightAt(ea: Word, v: Word, s: Sys)
    requires ValidMemory(s.mem) && Reachable(s.mem, WordOf(ea), Word4)
    ensures ExecStore(SWR, ea, v, s).Some?
    ensures var t := ExecStore(SWR, ea, v, s).value;
            t == s.(mem := t.mem) && ValidMemory(t.mem) && t.mem.text == s.mem.text &&
            forall b: int :: RightStored(s.mem, t.mem, ea, v, b)
  {
    hide StoreUnaligned, StoreRight, ByteOf, ByteAt, LoadBytes, Reachable, ValidMemory;
    StoresWord(SWR, WordOf(ea), ea % 4, v, s);
    var x, t := LoadBytes(s.mem, WordOf(ea), Word4), ExecStore(SWR, ea, v, s).value;
    forall b: int
      ensures RightStored(s.mem, t.mem, ea, v, b)
    {
      if WordOf(ea) <= b < WordOf(ea) + 4 {
        StoreRightBytes(x, v, ea % 4, b - WordOf(ea));
        LoadedByte(s.mem, WordOf(ea), b - WordOf(ea));
      }
    }
  }

  lemma PairBytes(m: Memory, g: Memory, h: Memory, a: Word, v: Word, ea: Word)
    requires ea == a + 3
    requires forall b: int :: LeftStored(m, g, ea, v, b)
    requires forall b: int :: RightStored(g, h, a, v, b)
    ensures forall b: int :: WholeStored(m, h, a, v, b)
  {
    hide ByteOf, ByteAt;
    WordsAround(a, a % 4);
    forall b: int ensures WholeStored(m, h, a, v, b) {
      assert LeftStored(m, g, ea, v, b) && RightStored(g, h, a, v, b);
    }
  }

  /** SWL at a + 3 and then SWR at a store the word v at a, whatever the alignment of a, and change no
      other byte. */
  lemma StoresAnywhere(a: Word, v: Word, s: Sys, t: Sys)
    requires a + 3 < 0x1_0000_0000 && ValidMemory(s.mem) && Reachable(s.mem, WordOf(a + 3), Word4)
    requires ExecStore(SWL, a + 3, v, s) == Some(t) && Reachable(t.mem, WordOf(a), Word4)
    ensures ExecStore(SWR, a, v, t).Some?
    ensures var u := ExecStore(SWR, a, v, t).value;
            u == s.(mem := u.mem) && ValidMemory(u.mem) && u.mem.text == s.mem.text &&
            forall b: int :: WholeStored(s.mem, u.mem, a, v, b)
  {
    hide ExecStore, ByteOf, ByteAt, Reachable, ValidMemory, WordOf;
    StoreLeftAt(a + 3, v, s);
    StoreRightAt(a, v, t);
    PairBytes(s.mem, t.mem, ExecStore(SWR, a, v, t).value.mem, a, v, a + 3);
  }

  /** LWL at a + 3 and then LWR at a load the word at a. */
  lemma LoadsAnywhere(a: Word, rt: Reg, vt: Word, s: Sys, t: Sys, x: Word)
    requires a + 3 < 0x1_0000_0000 && ValidMemory(s.mem) && Reachable(s.mem, WordOf(a + 3), Word4) && !s.exc
    requires LoadAccess(LWL, a + 3, rt, vt, s) == Done(None, Some(RegWrite(rt, x)), t)
             && Reachable(t.mem, WordOf(a), Word4)
    ensures LoadAccess(LWR, a, rt, x, t).Done?
    ensures var o := LoadAccess(LWR, a, rt, x, t);
            o.ld == Some(RegWrite(rt, LoadBytes(s.mem, a, Word4))) && o.sys == s.(mem := o.sys.mem)
              && o.sys.mem.bytes == s.mem.bytes
  {
    hide ReadMem, LoadBytes, MergeLeft, MergeRight, Reachable, ValidMemory;
    LoadsLeft(a + 3, rt, vt, s);
    SameBytes(t.mem, s.mem);
    LoadsRight(a, rt, x, t);
    BothHalves(s.mem, a, vt);
    SameLoaded(t.mem, s.mem, WordOf(a));
  }

  lemma SameLoaded(m: Memory, g: Memory, a: Word)
    requires m.bytes == g.bytes
    ensures LoadBytes(m, a, Word4) == LoadBytes(g, a, Word4)
  {
  }

  lemma LoadsLeft(ea: Word, rt: Reg, vt: Word, s: Sys)
    requires ValidMemory(s.mem) && Reachable(s.mem, WordOf(ea), Word4) && !s.exc
    ensures LoadAccess(LWL, ea, rt, vt, s).Done?
    ensures var o := LoadAccess(LWL, ea, rt, vt, s);
            o.ld == Some(RegWrite(rt, MergeLeft(LoadBytes(s.mem, WordOf(ea), Word4), vt, ea % 4)))
            && o.sys == s.(mem := o.sys.mem) && o.sys.mem.bytes == s.mem.bytes && ValidMemory(o.sys.mem)
  {
    hide ReadMem, LoadBytes, MergeLeft, MergeRight, Reachable, ValidMemory;
    ReadsBytes(s, WordOf(ea), Word4);
    WordExtends(LoadBytes(s.mem, WordOf(ea), Word4));
  }

  lemma LoadsRight(ea: Word, rt: Reg, vt: Word, s: Sys)
    requires ValidMemory(s.mem) && Reachable(s.mem, WordOf(ea), Word4) && !s.exc
    ensures LoadAccess(LWR, ea, rt, vt, s).Done?
    ensures var o := LoadAccess(LWR, ea, rt, vt, s);
            o.ld == Some(RegWrite(rt, MergeRight(LoadBytes(s.mem, WordOf(ea), Word4), vt, ea % 4)))
            && o.sys == s.(mem := o.sys.mem) && o.sys.mem.bytes == s.mem.bytes && ValidMemory(o.sys.mem)
  {
    hide ReadMem, LoadBytes, MergeLeft, MergeRight, Reachable, ValidMemory;
    ReadsBytes(s, WordOf(ea), Word4);
    WordExtends(LoadBytes(s.mem, WordOf(ea), Word4));
  }

  /** Byte j of the register after LWL at ea: the top one is the byte at ea, and the ones below it come
      from the addresses below, as far as the word goes. */
  predicate LeftLoaded(m: Memory, ea: Word, vt: Word, x: Word, j: nat) {
    ByteOf(x, j) == if ea % 4 >= 3 - j then ByteAt(m, ea - (3 - j)) else ByteOf(vt, j)
  }

  /** After LWR at ea: the lowest one is the byte at ea, and the ones above it come from above. */
  predicate RightLoaded(m: Memory, ea: Word, vt: Word, x: Word, j: nat) {
    ByteOf(x, j) == if ea % 4 <= 3 - j then ByteAt(m, ea + j) else ByteOf(vt, j)
  }

  /** One unaligned load, at any address, on any register. */
  lemma LoadsPart(op: Op, ea: Word, rt: Reg, vt: Word, s: Sys) returns (x: Word, t: Sys)
    requires (op.LWL? || op.LWR?) && ValidMemory(s.mem) && Reachable(s.mem, WordOf(ea), Word4) && !s.exc
    ensures LoadAccess(op, ea, rt, vt, s) == Done(None, Some(RegWrite(rt, x)), t)
    ensures forall j: nat | j < 4 :: if op.LWL? then LeftLoaded(s.mem, ea, vt, x, j) else RightLoaded(s.mem, ea, vt, x, j)
    ensures t == s.(mem := t.mem) && t.mem.bytes == s.mem.bytes
  {
    hide LoadAccess, LoadBytes, MergeLeft, MergeRight, Reachable, ValidMemory, ByteAt, ByteOf;
    var o, w := LoadAccess(op, ea, rt, vt, s), LoadBytes(s.mem, WordOf(ea), Word4);
    if op.LWL? { LoadsLeft(ea, rt, vt, s); } else { LoadsRight(ea, rt, vt, s); }
    WritesNothing(op, ea, rt, vt, s);
    x, t := o.ld.value.value, o.sys;
    LoadedBytes(s.mem, WordOf(ea));
    forall j: nat | j < 4
      ensures if op.LWL? then LeftLoaded(s.mem, ea, vt, x, j) else RightLoaded(s.mem, ea, vt, x, j)
    {
      MergeLeftBytes(w, vt, ea % 4, j);
      MergeRightBytes(w, vt, ea % 4, j);
    }
  }

  lemma WritesNothing(op: Op, ea: Word, rt: Reg, vt: Word, s: Sys)
    ensures LoadAccess(op, ea, rt, vt, s).Done? ==> LoadAccess(op, ea, rt, vt, s).wr.None?
  {
    hide ReadMem, LoadResult;
  }

  /** The two merges make the word at a, out of the words around a + 3 and a. */
  lemma BothHalves(m: Memory, a: Word, vt: Word)
    requires a + 3 < 0x1_0000_0000
    ensures MergeRight(LoadBytes(m, WordOf(a), Word4), MergeLeft(LoadBytes(m, WordOf(a + 3), Word4), vt, (a + 3) % 4), a % 4)
            == LoadBytes(m, a, Word4)
  {
    hide MergeLeft, MergeRight, ByteAt, ByteOf, WordOf, FromBytes, LoadBytes;
    var k, lo, hi := a % 4, WordOf(a), WordOf(a + 3);
    WordsAround(a, k);
    MergeBoth(LoadBytes(m, lo, Word4), LoadBytes(m, hi, Word4), vt, k);
    LoadedBytes(m, lo);
    LoadedBytes(m, hi);
    LoadIs(m, a);
  }

  lemma LoadIs(m: Memory, a: int)
    ensures LoadBytes(m, a, Word4) == FromBytes(ByteAt(m, a), ByteAt(m, a + 1), ByteAt(m, a + 2), ByteAt(m, a + 3))
  {
  }

  lemma WordsAround(a: Word, k: nat)
    requires k == a % 4 && a + 3 < 0x1_0000_0000
    ensures WordOf(a) == a - k && WordOf(a + 3) == (if k == 0 then a else a - k + 4)
            && (a + 3) % 4 == (if k == 0 then 3 else k - 1)
  {
    ModUnique(a + 3, 4, a / 4 + (if k == 0 then 0 else 1), if k == 0 then 3 else k - 1);
  }

  lemma LoadedBytes(m: Memory, a: int)
    ensures var w := LoadBytes(m, a, Word4);
            ByteOf(w, 0) == ByteAt(m, a) && ByteOf(w, 1) == ByteAt(m, a + 1) && ByteOf(w, 2) == ByteAt(m, a + 2)
              && ByteOf(w, 3) == ByteAt(m, a + 3)
  {
    hide ByteAt, ByteOf, LoadBytes;
    LoadedByte(m, a, 0);
    LoadedByte(m, a, 1);
    LoadedByte(m, a, 2);
    LoadedByte(m, a, 3);
  }

  /** Storing a word and loading it back, at any address. */
  lemma ComesBack(a: Word, v: Word, m: Memory)
    requires forall b: int | a <= b < a + 4 :: ByteAt(m, b) == ByteOf(v, b - a)
    ensures LoadBytes(m, a, Word4) == v
  {
    hide ByteAt, ByteOf;
    MemoryImage.BytesJoin(v);
  }

  // ---------- The instruction pairs on the machine ----------

  lemma LoadStep(st: State, n: nat, i: Inst, ea: Word, x: Word)
    requires Running(st, n, i) && IsLoad(i.op) && ea == Wrap(RegOf(st.r, i.rs) + i.imm)
    requires LoadAccess(i.op, ea, i.rt, RegOf(st.r, i.rt), st.sys) == Done(None, Some(RegWrite(i.rt, x)), st.sys)
    ensures Step(st) == Next(Isa.State(st.r[0 := 0][i.rt := x], Moved(st.sys, n + 1)))
  {
    hide LoadAccess, Step, IsLoad;
    StepAccess(st, n, i);
    PcOfSlot(n);
    assert Finish(st.sys) == Moved(st.sys, n + 1);
  }

  lemma StoreStep(st: State, n: nat, i: Inst, ea: Word, t: Sys)
    requires Running(st, n, i) && IsStore(i.op) && !IsLoad(i.op) && ea == Wrap(RegOf(st.r, i.rs) + i.imm)
    requires ExecStore(i.op, ea, RegOf(st.r, i.rt), st.sys) == Some(t) && t == st.sys.(mem := t.mem)
    ensures Step(st) == Next(Isa.State(st.r[0 := 0], Moved(t, n + 1)))
  {
    hide ExecStore, Step, IsLoad, IsStore;
    StepAccess(st, n, i);
    PcOfSlot(n);
    assert Finish(t) == Moved(t, n + 1);
  }

  /** Slots n and n + 1 hold two accesses of one register off one base, at a + 3 and at a, in words
      that are mapped. */
  ghost predicate Pair(st: State, n: nat, i: Inst, j: Inst, a: Word) {
    && Running(st, n, i) && n + 1 < |st.sys.mem.text| && st.sys.mem.text[n + 1] == Slot.Some(j)
      && !Undefined(j, st.sys.syms)
    && i.rt == j.rt && i.rs == j.rs && a + 3 < 0x1_0000_0000
    && Wrap(RegOf(st.r, i.rs) + i.imm) == a + 3 && Wrap(RegOf(st.r, i.rs) + j.imm) == a
    && ValidMemory(st.sys.mem) && Mapped(st.sys.mem, WordOf(a + 3)) && Mapped(st.sys.mem, WordOf(a))
  }

  lemma SecondRuns(st: State, n: nat, i: Inst, j: Inst, a: Word, r: Bank, t: Sys)
    requires Pair(st, n, i, j, a) && t == st.sys.(mem := t.mem) && t.mem.text == st.sys.mem.text
    requires RegOf(r, i.rs) == RegOf(st.r, i.rs)
    ensures var u := Isa.State(r, Moved(t, n + 1)); Running(u, n + 1, j) && a == Wrap(RegOf(u.r, j.rs) + j.imm)
  {
  }

  lemma TwoSteps(step: Machine, st: State, u: State, w: State)
    requires step(st) == Next(u) && step(u) == Next(w)
    ensures Run(step, st, 2) == Some(w)
  {
    assert Run(step, w, 0) == Some(w);
    assert Run(step, u, 1) == Some(w);
  }

  /** No segment grows for an access to a mapped word. */
  lemma MappedLoad(op: Op, ea: Word, rt: Reg, vt: Word, s: Sys)
    requires (op.LWL? || op.LWR?) && ValidMemory(s.mem) && Mapped(s.mem, WordOf(ea)) && !s.exc
    ensures var x := LoadBytes(s.mem, WordOf(ea), Word4);
            LoadAccess(op, ea, rt, vt, s) ==
            Done(None, Some(RegWrite(rt, if op.LWL? then MergeLeft(x, vt, ea % 4) else MergeRight(x, vt, ea % 4))), s)
  {
    hide LoadBytes, MergeLeft, MergeRight, ValidMemory, Mapped;
    WordExtends(LoadBytes(s.mem, WordOf(ea), Word4));
    MappedRead(s, WordOf(ea));
  }

  lemma MappedRead(s: Sys, a: Word)
    requires Mapped(s.mem, a) && a % 4 == 0
    ensures ReadMem(s, a, Word4) == ReadResult.Read(SignExtend(LoadBytes(s.mem, a, Word4), Word4), s)
  {
  }

  /** LWL and LWR of one register, which is neither $0 nor their base: the register gets the word at a,
      and nothing else changes. */
  lemma LoadPairRuns(st: State, n: nat, i: Inst, j: Inst, a: Word)
    requires Pair(st, n, i, j, a) && i.op.LWL? && j.op.LWR? && i.rt != 0 && i.rt != i.rs
    ensures Run(Step, st, 2) == Some(Isa.State(st.r[0 := 0][i.rt := LoadBytes(st.sys.mem, a, Word4)], Moved(st.sys, n + 2)))
  {
    hide Step, LoadAccess, LoadBytes, MergeLeft, MergeRight, Run;
    var s, vt := st.sys, RegOf(st.r, i.rt);
    var x := MergeLeft(LoadBytes(s.mem, WordOf(a + 3), Word4), vt, (a + 3) % 4);
    MappedLoad(LWL, a + 3, i.rt, vt, s);
    LoadStep(st, n, i, a + 3, x);
    var u := Isa.State(st.r[0 := 0][i.rt := x], Moved(s, n + 1));
    SecondRuns(st, n, i, j, a, u.r, s);
    MappedLoad(LWR, a, i.rt, x, u.sys);
    BothHalves(s.mem, a, vt);
    LoadStep(u, n + 1, j, a, LoadBytes(s.mem, a, Word4));
    var w := Isa.State(st.r[0 := 0][i.rt := LoadBytes(s.mem, a, Word4)], Moved(s, n + 2));
    assert u.r[0 := 0][i.rt := LoadBytes(s.mem, a, Word4)] == w.r;
    TwoSteps(Step, st, u, w);
  }

  lemma WordAligned(ea: Word)
    ensures WordOf(ea) % 4 == 0
  {
  }

  lemma StillMapped(m: Memory, g: Memory, a: Word)
    requires ValidMemory(m) && ValidMemory(g) && g == m.(bytes := g.bytes) && Mapped(m, a) && a % 4 == 0
    ensures Reachable(m, a, Word4) && Reachable(g, a, Word4)
  {
    StillReachable(m, a);
    StillReachable(g, a);
  }

  /** SWL and SWR of one register: the four bytes from a on become its bytes, and nothing else changes. */
  lemma StorePairRuns(st: State, n: nat, i: Inst, j: Inst, a: Word) returns (w: State)
    requires Pair(st, n, i, j, a) && i.op.SWL? && j.op.SWR?
    ensures Run(Step, st, 2) == Some(w) && w.r == st.r[0 := 0] && w.sys == Moved(st.sys, n + 2).(mem := w.sys.mem)
    ensures ValidMemory(w.sys.mem) && w.sys.mem.text == st.sys.mem.text
    ensures forall b: int :: WholeStored(st.sys.mem, w.sys.mem, a, RegOf(st.r, i.rt), b)
  {
    hide Step, ExecStore, LeftStored, RightStored, WholeStored, Run, ValidMemory, Mapped, Reachable, WordOf;
    var s, v := st.sys, RegOf(st.r, i.rt);
    WordAligned(a + 3);
    WordAligned(a);
    StillReachable(s.mem, WordOf(a + 3));
    StoreLeftAt(a + 3, v, s);
    var t := ExecStore(SWL, a + 3, v, s).value;
    StoreStep(st, n, i, a + 3, t);
    var u := Isa.State(st.r[0 := 0], Moved(t, n + 1));
    SecondRuns(st, n, i, j, a, u.r, t);
    NoGrowth(SWL, a + 3, v, s, t);
    StillMapped(s.mem, t.mem, WordOf(a));
    StoreRightAt(a, v, u.sys);
    var p := ExecStore(SWR, a, v, u.sys).value;
    PairBytes(s.mem, t.mem, p.mem, a, v, a + 3);
    StoreStep(u, n + 1, j, a, p);
    w := Isa.State(st.r[0 := 0], Moved(p, n + 2));
    TwoSteps(Step, st, u, w);
  }

  lemma NoGrowth(op: Op, ea: Word, v: Word, s: Sys, t: Sys)
    requires op.SWL? && Mapped(s.mem, WordOf(ea)) && ExecStore(op, ea, v, s) == Some(t) && ValidMemory(s.mem)
    ensures t.mem == s.mem.(bytes := t.mem.bytes)
  {
    hide LoadBytes, StoreLeft, ValidMemory, Mapped, ReadMem, WriteMem, SignExtend;
    MappedRead(s, WordOf(ea));
    MappedWrite(s, WordOf(ea), StoreLeft(SignExtend(LoadBytes(s.mem, WordOf(ea), Word4), Word4), v, ea % 4));
  }

  lemma MappedWrite(s: Sys, a: Word, x: Word)
    requires Mapped(s.mem, a) && a % 4 == 0 && WriteMem(s, a, Word4, x).Some?
    ensures var t := WriteMem(s, a, Word4, x).value; t.mem == s.mem.(bytes := t.mem.bytes)
  {
    hide ByteOf;
  }
}
