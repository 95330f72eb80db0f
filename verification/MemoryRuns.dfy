/** Runs of loads, stores and sbrk calls: every load returns what was last stored at its addresses, or
    zero, whatever the segments had to grow in between. */
module MemoryRuns {
  import opened Word
  import opened Instruction
  import opened Codec
  import opened Isa
  import opened Loads
  import MemoryImage

  datatype Access = Load(a: Word, z: Size) | Store(a: Word, z: Size, v: Word) | Sbrk(n: Int32)

  // ---------- One access ----------

  /** The segments that hold data, and the zone in which the stack grows. */
  predicate Reachable(m: Memory, a: Word, z: Size) {
    && a % Bytes(z) == 0 && !InText(m, a)
    && (Mapped(m, a) || (InGrowthZone(m, a) && GrowStack(m, a).Some?))
  }

  lemma Disjoint(m: Memory, a: Word)
    requires ValidMemory(m) && Mapped(m, a)
    ensures !InText(m, a) && !InGrowthZone(m, a)
  {
  }

  /** A whole aligned access lies in one segment. */
  lemma WholeMapped(m: Memory, a: Word, z: Size, k: nat)
    requires ValidMemory(m) && Mapped(m, a) && a % Bytes(z) == 0 && k < Bytes(z)
    ensures Mapped(m, a + k) && a + Bytes(z) <= 0x1_0000_0000
  {
    InWord(a, m.dataTop, z);
    InWord(a, STACK_TOP, z);
    InWord(a, m.kDataTop, z);
    InWord(a, SPECIAL_TOP, z);
  }

  /** An aligned access below a word boundary ends below it. */
  lemma InWord(a: int, top: int, z: Size)
    requires a % Bytes(z) == 0 && top % 4 == 0
    ensures a < top ==> a + Bytes(z) <= top
  {
  }

  lemma GrownSize(stackBot: Word, a: Word)
    requires a < stackBot <= STACK_TOP && stackBot % 4 == 0
    ensures GrownStack(stackBot, stackBot - a + 4) % 4 == 0
    ensures STACK_TOP - GrownStack(stackBot, stackBot - a + 4) <= a
            && GrownStack(stackBot, stackBot - a + 4) >= STACK_TOP - stackBot
  {
  }

  /** Growing the stack keeps the segments apart, keeps every byte, and reaches the address. */
  lemma GrowthIsInvisible(m: Memory, a: Word)
    requires ValidMemory(m) && InGrowthZone(m, a) && GrowStack(m, a).Some?
    ensures var g := GrowStack(m, a).value;
            ValidMemory(g) && Mapped(g, a) && g.text == m.text && g.bytes == m.bytes && ByteAt(m, a) == 0
  {
    GrownSize(m.stackBot, a);
    var g := GrowStack(m, a).value;
    assert forall b: int :: Mapped(m, b) ==> Mapped(g, b);
  }

  lemma SbrkIsInvisible(m: Memory, n: Int32)
    requires ValidMemory(m) && GrowData(m, n).Some?
    ensures var g := GrowData(m, n).value;
            ValidMemory(g) && g.text == m.text && g.bytes == m.bytes && g.dataTop >= m.dataTop + n
  {
    var g := GrowData(m, n).value;
    assert RoundUp4(n) >= n && RoundUp4(n) % 4 == 0;
    assert forall b: int :: Mapped(m, b) ==> Mapped(g, b);
  }

  /** The byte at b after storing v at a. */
  function Patch(a: int, z: Size, v: Word, b: int, old': Byte): Byte {
    if a <= b < a + Bytes(z) then ByteOf(v, b - a) else old'
  }

  lemma StoredKeys(m: Memory, a: Word, z: Size, v: Word, b: int)
    requires a + Bytes(z) <= 0x1_0000_0000
    ensures b in StoreBytes(m, a, z, v).bytes ==> b in m.bytes || a <= b < a + Bytes(z)
  {
    hide ByteOf;
  }

  lemma StoredValid(m: Memory, a: Word, z: Size, v: Word)
    requires ValidMemory(m) && Mapped(m, a) && a % Bytes(z) == 0
    ensures a + Bytes(z) <= 0x1_0000_0000
    ensures ValidMemory(StoreBytes(m, a, z, v)) && StoreBytes(m, a, z, v).text == m.text && Mapped(StoreBytes(m, a, z, v), a)
  {
    WholeMapped(m, a, z, 0);
    var g := StoreBytes(m, a, z, v);
    assert g == m.(bytes := g.bytes);
    forall b | b in g.bytes ensures Mapped(g, b) {
      StoredKeys(m, a, z, v, b);
      if b !in m.bytes { WholeMapped(m, a, z, b - a); }
    }
  }

  // ---------- Histories ----------

  /** What the byte at b should be: the last store to it says, or else it is as it was at first. */
  function LastStored(m: Memory, h: seq<Access>, b: int): Byte {
    if h == [] then ByteAt(m, b)
    else
      var before := LastStored(m, h[..|h| - 1], b);
      match h[|h| - 1]
      case Load(_, _) => before
      case Sbrk(_) => before
      case Store(a, z, v) => Patch(a, z, v, b, before)
  }

  /** The little-endian number in the k bytes last stored from a on. */
  function LastNumber(m: Memory, h: seq<Access>, a: int, k: nat): int
    decreases k
  {
    if k == 0 then 0 else LastStored(m, h, a) + 0x100 * LastNumber(m, h, a + 1, k - 1)
  }

  /** An access to data, if it is allowed and the segments may grow as far as it takes. */
  function Perform(s: Sys, op: Access): Option<Sys> {
    match op
    case Load(a, z) =>
      if !Reachable(s.mem, a, z) then None
      else (match ReadMem(s, a, z) case NoRead => None case Read(_, t) => Some(t))
    case Store(a, z, v) => if !Reachable(s.mem, a, z) then None else WriteMem(s, a, z, v)
    case Sbrk(n) => (match GrowData(s.mem, n) case None => None case Some(g) => Some(s.(mem := g)))
  }

  function PerformAll(s: Sys, h: seq<Access>): Option<Sys> {
    if h == [] then Some(s)
    else
      match PerformAll(s, h[..|h| - 1])
      case None => None
      case Some(t) => Perform(t, h[|h| - 1])
  }

  /** s has the bytes that the history calls for. */
  ghost predicate Remembers(m: Memory, h: seq<Access>, s: Sys) {
    ValidMemory(s.mem) && s.mem.text == m.text && forall b: int :: ByteAt(s.mem, b) == LastStored(m, h, b)
  }

  lemma ReadsBytes(s: Sys, a: Word, z: Size)
    requires ValidMemory(s.mem) && Reachable(s.mem, a, z)
    ensures ReadMem(s, a, z).Read? && ReadMem(s, a, z).value == SignExtend(LoadBytes(s.mem, a, z), z)
    ensures var t := ReadMem(s, a, z).sys;
            t == s.(mem := t.mem) && ValidMemory(t.mem) && t.mem.text == s.mem.text && t.mem.bytes == s.mem.bytes
            && Mapped(t.mem, a)
  {
    hide GrowStack, SignExtend, ValidMemory;
    if Mapped(s.mem, a) {
    } else {
      GrowthIsInvisible(s.mem, a);
      ZeroBytes(s.mem, a, z);
      ZeroExtends(z);
    }
  }

  lemma ZeroExtends(z: Size)
    ensures SignExtend(0, z) == 0
  {
  }

  lemma ZeroBytes(m: Memory, a: Word, z: Size)
    requires ValidMemory(m) && InGrowthZone(m, a) && a % Bytes(z) == 0
    ensures LoadBytes(m, a, z) == 0
  {
  }

  lemma WritesBytes(s: Sys, a: Word, z: Size, v: Word)
    requires ValidMemory(s.mem) && Reachable(s.mem, a, z)
    ensures WriteMem(s, a, z, v).Some?
    ensures var t := WriteMem(s, a, z, v).value;
            && t == s.(mem := t.mem) && ValidMemory(t.mem) && t.mem.text == s.mem.text && Mapped(t.mem, a)
            && forall b: int :: ByteAt(t.mem, b) == Patch(a, z, v, b, ByteAt(s.mem, b))
  {
    hide GrowStack, ValidMemory, StoreBytes, ByteAt, ByteOf;
    var g := s.mem;
    if !Mapped(s.mem, a) {
      GrowthIsInvisible(s.mem, a);
      g := GrowStack(s.mem, a).value;
    }
    StoredValid(g, a, z, v);
    forall b: int ensures ByteAt(StoreBytes(g, a, z, v), b) == Patch(a, z, v, b, ByteAt(s.mem, b)) {
      MemoryImage.StoreBytesAt(g, a, z, v, b);
      SameBytesAt(g, s.mem, b);
    }
  }

  lemma SameBytesAt(m: Memory, g: Memory, b: int)
    requires m.bytes == g.bytes
    ensures ByteAt(m, b) == ByteAt(g, b)
  {
  }

  lemma LastAfter(m: Memory, h: seq<Access>, op: Access, b: int)
    ensures LastStored(m, h + [op], b) == if op.Store? then Patch(op.a, op.z, op.v, b, LastStored(m, h, b)) else LastStored(m, h, b)
  {
    assert (h + [op])[..|h + [op]| - 1] == h;
  }

  lemma PerformRemembers(m: Memory, h: seq<Access>, s: Sys, op: Access)
    requires Remembers(m, h, s) && Perform(s, op).Some?
    ensures Remembers(m, h + [op], Perform(s, op).value)
  {
    hide ValidMemory, Reachable, ReadMem, WriteMem, GrowData, LastStored, Patch;
    match op {
      case Load(a, z) => ReadsBytes(s, a, z);
      case Store(a, z, v) => WritesBytes(s, a, z, v);
      case Sbrk(n) => SbrkIsInvisible(s.mem, n);
    }
    var t := Perform(s, op).value;
    forall b: int ensures ByteAt(t.mem, b) == LastStored(m, h + [op], b) {
      LastAfter(m, h, op, b);
    }
  }

  lemma {:induction false} RunRemembers(s: Sys, h: seq<Access>)
    requires ValidMemory(s.mem) && PerformAll(s, h).Some?
    ensures Remembers(s.mem, h, PerformAll(s, h).value)
  {
    hide ValidMemory, Perform;
    if h != [] {
      RunRemembers(s, h[..|h| - 1]);
      assert h[..|h| - 1] + [h[|h| - 1]] == h;
      PerformRemembers(s.mem, h[..|h| - 1], PerformAll(s, h[..|h| - 1]).value, h[|h| - 1]);
    }
  }

  lemma BytesMakeNumber(m: Memory, h: seq<Access>, s: Sys, a: Word, op: Op)
    requires Remembers(m, h, s) && LoadsNumber(op)
    ensures LoadBytes(s.mem, a, SizeOf(op)) == LastNumber(m, h, a, Width(op)) < Beyond(Width(op))
  {
    hide LastStored, ByteAt, ValidMemory, LastNumber, LoadBytes, Beyond;
    BeyondIs();
    FourBytes(m, h, a);
    BytesOf(s.mem, a);
    assert ByteAt(s.mem, a) == LastStored(m, h, a) && ByteAt(s.mem, a + 1) == LastStored(m, h, a + 1);
    assert ByteAt(s.mem, a + 2) == LastStored(m, h, a + 2) && ByteAt(s.mem, a + 3) == LastStored(m, h, a + 3);
  }

  lemma BeyondIs()
    ensures Beyond(1) == 0x100 && Beyond(2) == 0x1_0000 && Beyond(4) == 0x1_0000_0000
  {
    assert Beyond(1) == 0x100 && Beyond(2) == 0x1_0000;
    assert Beyond(3) == 0x100 * Beyond(2);
  }

  lemma BytesOf(m: Memory, a: Word)
    ensures LoadBytes(m, a, Byte1) == ByteAt(m, a)
    ensures LoadBytes(m, a, Half2) == ByteAt(m, a) + 0x100 * ByteAt(m, a + 1)
    ensures LoadBytes(m, a, Word4) ==
            ByteAt(m, a) + 0x100 * ByteAt(m, a + 1) + 0x1_0000 * ByteAt(m, a + 2) + 0x100_0000 * ByteAt(m, a + 3)
  {
    hide ByteAt;
  }

  lemma FourBytes(m: Memory, h: seq<Access>, a: int)
    ensures LastNumber(m, h, a, 1) == LastStored(m, h, a)
    ensures LastNumber(m, h, a, 2) == LastStored(m, h, a) + 0x100 * LastStored(m, h, a + 1)
    ensures LastNumber(m, h, a, 4) == LastStored(m, h, a) + 0x100 * LastStored(m, h, a + 1) +
              0x1_0000 * LastStored(m, h, a + 2) + 0x100_0000 * LastStored(m, h, a + 3)
  {
    hide LastStored;
    assert LastNumber(m, h, a + 3, 1) == LastStored(m, h, a + 3) + 0x100 * LastNumber(m, h, a + 4, 0);
    assert LastNumber(m, h, a + 2, 2) == LastStored(m, h, a + 2) + 0x100 * LastNumber(m, h, a + 3, 1);
    assert LastNumber(m, h, a + 1, 3) == LastStored(m, h, a + 1) + 0x100 * LastNumber(m, h, a + 2, 2);
    assert LastNumber(m, h, a + 1, 1) == LastStored(m, h, a + 1) + 0x100 * LastNumber(m, h, a + 2, 0);
  }

  lemma LoadReads(op: Op, a: Word, rt: Reg, vt: Word, t: Sys)
    requires LoadsNumber(op) && ReadMem(t, a, SizeOf(op)).Read?
    ensures var r := ReadMem(t, a, SizeOf(op));
            LoadAccess(op, a, rt, vt, t) == Done(None, Some(RegWrite(rt, LoadResult(op, r.value, vt, a, r.sys.exc))), r.sys)
  {
    hide ReadMem, LoadResult, SizeOf;
  }

  /** After any history, a load delivers the little-endian number last stored in its one, two or four
      bytes, extended with its sign or with zeros, and changes nothing but the bounds of the stack. */
  lemma LoadsWhatWasStored(s: Sys, h: seq<Access>, t: Sys, op: Op, a: Word, rt: Reg, vt: Word) returns (v: Word, u: Sys)
    requires ValidMemory(s.mem) && PerformAll(s, h) == Some(t)
    requires LoadsNumber(op) && Reachable(t.mem, a, SizeOf(op))
    ensures LoadAccess(op, a, rt, vt, t) == Done(None, Some(RegWrite(rt, v)), u)
    ensures Delivers(op, LastNumber(s.mem, h, a, Width(op)), v)
    ensures u == t.(mem := t.mem.(stackBot := u.mem.stackBot))
  {
    hide ValidMemory, Reachable, ReadMem, PerformAll, LastStored, LoadAccess, Delivers, LoadResult, SignExtend, SizeOf,
      LoadsNumber, Remembers, LastNumber;
    RunRemembers(s, h);
    RemembersValid(s.mem, h, t);
    ReadsBytes(t, a, SizeOf(op));
    OnlyGrows(t, a, SizeOf(op));
    BytesMakeNumber(s.mem, h, t, a, op);
    LoadReads(op, a, rt, vt, t);
    u := ReadMem(t, a, SizeOf(op)).sys;
    v := LoadResult(op, ReadMem(t, a, SizeOf(op)).value, vt, a, u.exc);
    Extends(op, LoadBytes(t.mem, a, SizeOf(op)), vt, a, u.exc);
  }

  lemma RemembersValid(m: Memory, h: seq<Access>, s: Sys)
    requires Remembers(m, h, s)
    ensures ValidMemory(s.mem)
  {
  }

  lemma OnlyGrows(s: Sys, a: Word, z: Size)
    requires ValidMemory(s.mem) && Reachable(s.mem, a, z) && ReadMem(s, a, z).Read?
    ensures var u := ReadMem(s, a, z).sys; u == s.(mem := s.mem.(stackBot := u.mem.stackBot))
  {
    hide SignExtend, LoadBytes, GrownStack;
  }

  // ---------- Stores ----------

  /** A store changes exactly its one, two or four bytes. */
  lemma StoreChanges(op: Op, a: Word, x: Word, s: Sys) returns (t: Sys)
    requires StoresNumber(op) && ValidMemory(s.mem) && Reachable(s.mem, a, SizeOf(op))
    ensures ExecStore(op, a, x, s) == Some(t) && t == s.(mem := t.mem) && ValidMemory(t.mem) && Mapped(t.mem, a)
    ensures forall b: int :: ByteAt(t.mem, b) ==
              if a <= b < a + Width(op) then ByteDigit(x, b - a) else ByteAt(s.mem, b)
  {
    hide ValidMemory, Reachable, WriteMem, ByteAt, ByteOf, ByteDigit;
    WritesBytes(s, a, SizeOf(op), x);
    t := WriteMem(s, a, SizeOf(op), x).value;
    forall b: int ensures ByteAt(t.mem, b) == if a <= b < a + Width(op) then ByteDigit(x, b - a) else ByteAt(s.mem, b) {
      assert ByteAt(t.mem, b) == Patch(a, SizeOf(op), x, b, ByteAt(s.mem, b));
      if a <= b < a + Width(op) { ByteDigitIs(x, b - a); }
    }
  }

  /** What the stored bytes of x amount to. */
  lemma StoredNumber(op: Op, x: Word, m: Memory, a: Word)
    requires LoadsNumber(op)
    requires forall b: int :: a <= b < a + Width(op) ==> ByteAt(m, b) == ByteDigit(x, b - a)
    ensures forall v: Word :: Delivers(op, LastNumber(m, [], a, Width(op)), v) ==> Delivers(op, x, v)
  {
    hide ByteDigit, ByteAt;
    FourBytes(m, [], a);
    DigitsMake(x);
    assert ByteAt(m, a) == ByteDigit(x, 0);
    if Width(op) >= 2 { assert ByteAt(m, a + 1) == ByteDigit(x, 1); }
    if Width(op) == 4 { assert ByteAt(m, a + 2) == ByteDigit(x, 2) && ByteAt(m, a + 3) == ByteDigit(x, 3); }
    forall v: Word | Delivers(op, LastNumber(m, [], a, Width(op)), v) ensures Delivers(op, x, v) {
      SameDelivery(op, LastNumber(m, [], a, Width(op)), x, v);
    }
  }

  lemma SameDelivery(op: Op, n: int, x: int, v: Word)
    requires LoadsNumber(op) && Delivers(op, n, v)
    requires Width(op) == 1 ==> (x - n) % 0x100 == 0
    requires Width(op) == 2 ==> (x - n) % 0x1_0000 == 0
    requires Width(op) == 4 ==> x == n
    ensures Delivers(op, x, v)
  {
    if Width(op) == 1 { SumOfMultiples(v - n, x - n, 0x100); }
    if Width(op) == 2 { SumOfMultiples(v - n, x - n, 0x1_0000); }
  }

  lemma SumOfMultiples(x: int, y: int, d: int)
    requires (d == 0x100 || d == 0x1_0000) && x % d == 0 && y % d == 0
    ensures (x - y) % d == 0
  {
  }

  /** A load behind a store of the same width delivers the stored number: x itself if it is in the
      range of the load, and x cut and extended otherwise. */
  lemma StoredComesBack(op: Op, lop: Op, a: Word, x: Word, s: Sys, rt: Reg, vt: Word) returns (t: Sys, v: Word)
    requires StoresNumber(op) && LoadsNumber(lop) && Width(op) == Width(lop)
    requires ValidMemory(s.mem) && Reachable(s.mem, a, SizeOf(op))
    ensures ExecStore(op, a, x, s) == Some(t) && LoadAccess(lop, a, rt, vt, t) == Done(None, Some(RegWrite(rt, v)), t)
    ensures Delivers(lop, x, v) && (InRange(lop, x) <==> v == x)
  {
    hide ValidMemory, ExecStore, LoadAccess, Delivers, InRange, LoadsNumber, StoresNumber, ByteAt, ByteDigit, LastNumber;
    t := StoreChanges(op, a, x, s);
    SameWidth(op, lop);
    StillReachable(s.mem, t.mem, a, SizeOf(lop));
    var u: Sys;
    v, u := LoadsWhatWasStored(t, [], t, lop, a, rt, vt);
    MappedReads(t, lop, a, rt, vt);
    StoredNumber(lop, x, t.mem, a);
    InRangeDelivers(lop, x);
    if InRange(lop, x) { OneDelivered(lop, x, v, x); }
  }

  lemma SameWidth(op: Op, lop: Op)
    requires StoresNumber(op) && LoadsNumber(lop) && Width(op) == Width(lop)
    ensures SizeOf(op) == SizeOf(lop)
  {
  }

  lemma StillReachable(m: Memory, g: Memory, a: Word, z: Size)
    requires Reachable(m, a, z) && ValidMemory(g) && Mapped(g, a)
    ensures Reachable(g, a, z)
  {
    Disjoint(g, a);
  }

  lemma MappedReads(t: Sys, op: Op, a: Word, rt: Reg, vt: Word)
    requires LoadsNumber(op) && Mapped(t.mem, a) && a % Bytes(SizeOf(op)) == 0
    ensures LoadAccess(op, a, rt, vt, t).Done? ==> LoadAccess(op, a, rt, vt, t).sys == t
  {
    hide LoadBytes, SignExtend, LoadResult, SizeOf;
  }

  // ---------- The bounds of the segments ----------

  /** A growing stack is at least doubled, and no more than that unless the address lies further down. */
  lemma GrowthDoubles(m: Memory, a: Word)
    requires ValidMemory(m) && InGrowthZone(m, a)
    ensures var size := 0x8000_0000 - m.stackBot;
            match GrowStack(m, a)
            case None => 2 * size > m.stackLimit || 0x8000_0000 - a + 8 > m.stackLimit
            case Some(g) =>
              var grown := 0x8000_0000 - g.stackBot;
              g.stackBot <= a && 2 * size <= grown <= m.stackLimit && (grown == 2 * size || a < g.stackBot + 8)
  {
  }

  /** An aligned read outside the segments faults, unless it lies above the data and less than 16M below
      the stack. */
  lemma FaultsOutside(s: Sys, a: Word, z: Size)
    requires ValidMemory(s.mem) && !s.exc && a % Bytes(z) == 0 && !Mapped(s.mem, a) && !InText(s.mem, a)
    ensures ReadMem(s, a, z).Read? && ReadMem(s, a, z).sys.exc <==>
            !(s.mem.dataTop < a < s.mem.stackBot && a > s.mem.stackBot - 0x100_0000)
  {
    hide GrowStack, LoadBytes, SignExtend, Mapped, InText;
    FaultSets(s, a);
    NoWrapBelow(s.mem);
  }

  lemma FaultSets(s: Sys, a: Word)
    ensures Fault(s, EXC_DBE, a).exc
  {
  }

  lemma NoWrapBelow(m: Memory)
    requires ValidMemory(m)
    ensures Wrap(m.stackBot - MAX_GROWTH) == m.stackBot - 0x100_0000
  {
  }

  /** SBRK returns the old end of the data: the bytes from there on were not mapped, and are now, as
      many as were asked for in whole words, and read as zero. */
  lemma SbrkExtends(r: Bank, s: Sys, n: nat) returns (t: Sys)
    requires ValidMemory(s.mem) && !s.exc && r[2] == 9 && n == Signed(r[4]) && GrowData(s.mem, n).Some?
    ensures Syscall(r, s) == Ran(r[2 := s.mem.dataTop], None, t)
    ensures t == s.(pc := Wrap(s.pc + 4), mem := s.mem.(dataTop := t.mem.dataTop))
    ensures s.mem.dataTop + n <= t.mem.dataTop < s.mem.dataTop + n + 4 && t.mem.dataTop % 4 == 0
    ensures forall b | s.mem.dataTop <= b < t.mem.dataTop ::
              !Mapped(s.mem, b) && Mapped(t.mem, b) && ByteAt(t.mem, b) == 0
  {
    hide Mapped, ValidMemory;
    var g := GrowData(s.mem, n).value;
    t := Finish(s.(mem := g));
    SbrkIsInvisible(s.mem, n);
    RoundedUp(s.mem, n);
    forall b | s.mem.dataTop <= b < t.mem.dataTop
      ensures !Mapped(s.mem, b) && Mapped(t.mem, b) && ByteAt(t.mem, b) == 0
    {
      NewData(s.mem, g, b);
    }
  }

  lemma RoundedUp(m: Memory, n: nat)
    requires ValidMemory(m) && GrowData(m, n).Some?
    ensures var top := GrowData(m, n).value.dataTop; m.dataTop + n <= top < m.dataTop + n + 4 && top % 4 == 0
  {
  }

  lemma NewData(m: Memory, g: Memory, b: int)
    requires ValidMemory(m) && ValidMemory(g) && g == m.(dataTop := g.dataTop) && m.dataTop <= b < g.dataTop
    ensures !Mapped(m, b) && Mapped(g, b) && ByteAt(g, b) == 0
  {
  }

  /** Calls 10 and 17 end the run with everything in place. */
  lemma ExitsStop(r: Bank, s: Sys)
    requires r[2] == 10 || r[2] == 17
    ensures Syscall(r, s) == Exited(r, s)
  {
  }
}
