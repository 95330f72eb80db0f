/** The text segment written and read as data: what is stored into instructions is read back, and
    fetched. */
module TextData {
  import opened Word
  import opened Instruction
  import opened Codec
  import opened Isa
  import MemoryImage

  datatype TextStore = TextStore(a: Word, z: Size, v: Word)

  function SlotOf(a: int): int { (a - TEXT_BOT) / 4 }

  predicate Occupied(m: Memory, k: int) { 0 <= k < |m.text| && m.text[k].Some? }

  /** The word in an occupied slot. */
  function WordAt(m: Memory, k: int): Word { if Occupied(m, k) then m.text[k].value.encoding else 0 }

  /** Decoding keeps the word it decodes. */
  lemma DecodeKeeps(w: Word)
    ensures Decode(w).encoding == w
  {
    hide Lookup, BinReg, FormatOf, Extract;
    var op := Lookup(w / 0x400_0000, BinReg(w, 21), BinReg(w, 16), w % 64);
    if !op.INVALID? { ExtractKeeps(FormatOf(op), op, w); }
  }

  lemma ExtractKeeps(f: Format, op: Op, w: Word)
    ensures Extract(f, op, w).encoding == w
  {
    hide BinReg, TargetOf, Take;
    TakeKeeps(f, op, w, BinReg(w, 21), BinReg(w, 16), BinReg(w, 11), BinReg(w, 6), w % 0x1_0000, TargetOf(w));
  }

  lemma TakeKeeps(f: Format, op: Op, w: Word, rs: Reg, rt: Reg, rd: Reg, sa: Reg, low: nat, target: Word)
    ensures Take(f, op, w, rs, rt, rd, sa, low, target).encoding == w
  {
    hide S16;
  }

  /** A store into an occupied text slot. */
  function Put(s: Sys, op: TextStore): Option<Sys> {
    if op.a % Bytes(op.z) == 0 && InText(s.mem, op.a)
      && Occupied(s.mem, SlotOf(op.a)) then WriteMem(s, op.a, op.z, op.v) else None
  }

  function PutAll(s: Sys, h: seq<TextStore>): Option<Sys> {
    if h == [] then Some(s)
    else
      match PutAll(s, h[..|h| - 1])
      case None => None
      case Some(t) => Put(t, h[|h| - 1])
  }

  /** What the history makes of the word in slot k: each store replaces its bytes. */
  function LastWord(m: Memory, h: seq<TextStore>, k: int): Word {
    if h == [] then WordAt(m, k)
    else
      var before, op := LastWord(m, h[..|h| - 1], k), h[|h| - 1];
      if SlotOf(op.a) == k then SetField(before, op.a % 4, op.z, op.v) else before
  }

  predicate Touched(h: seq<TextStore>, k: int) { exists j :: 0 <= j < |h| && SlotOf(h[j].a) == k }

  lemma WholeField(w: Word, v: Word)
    ensures SetField(w, 0, Word4, v) == v
  {
    MemoryImage.BytesJoin(v);
  }

  lemma TextNotMapped(m: Memory, a: Word)
    requires ValidMemory(m) && InText(m, a)
    ensures !Mapped(m, a) && 0 <= SlotOf(a) < |m.text|
  {
  }

  /** The new instruction in its slot is the decoding of the changed word. */
  lemma PutWrites(s: Sys, op: TextStore)
    requires ValidMemory(s.mem) && Put(s, op).Some?
    ensures var k := SlotOf(op.a);
            Occupied(s.mem, k) && Put(s, op).value ==
            s.(mem := s.mem.(text := s.mem.text[k := Slot.Some(Decode(SetField(WordAt(s.mem, k), op.a % 4, op.z, op.v)))]))
  {
    hide Decode, SetField, ValidMemory, Mapped;
    TextNotMapped(s.mem, op.a);
    if op.z.Word4? { WholeField(WordAt(s.mem, SlotOf(op.a)), op.v); }
  }

  lemma PutValid(s: Sys, t: Sys, k: int, x: Slot)
    requires ValidMemory(s.mem) && 0 <= k < |s.mem.text| && t == s.(mem := s.mem.(text := s.mem.text[k := x]))
    ensures ValidMemory(t.mem)
  {
    assert forall a: int :: Mapped(t.mem, a) == Mapped(s.mem, a);
  }

  /** Every slot holds the word that the history calls for, and a slot stored to holds its decoding. */
  ghost predicate Coherent(m: Memory, h: seq<TextStore>, s: Sys) {
    && ValidMemory(s.mem) && s.mem == m.(text := s.mem.text) && |s.mem.text| == |m.text|
    && forall k | Occupied(m, k) :: SlotCoherent(m, h, s, k)
  }

  predicate SlotCoherent(m: Memory, h: seq<TextStore>, s: Sys, k: int) {
    && Occupied(s.mem, k) && WordAt(s.mem, k) == LastWord(m, h, k)
    && (Touched(h, k) ==> s.mem.text[k] == Slot.Some(Decode(LastWord(m, h, k))))
  }

  lemma LastAfter(m: Memory, h: seq<TextStore>, op: TextStore, k: int)
    ensures LastWord(m, h + [op], k) ==
            if SlotOf(op.a) == k then SetField(LastWord(m, h, k), op.a % 4, op.z, op.v) else LastWord(m, h, k)
    ensures Touched(h + [op], k) <==> Touched(h, k) || SlotOf(op.a) == k
  {
    var g := h + [op];
    assert g[..|g| - 1] == h && g[|g| - 1] == op;
    if Touched(h, k) {
      var j :| 0 <= j < |h| && SlotOf(h[j].a) == k;
      assert SlotOf(g[j].a) == k;
    }
    if Touched(g, k) && SlotOf(op.a) != k {
      var j :| 0 <= j < |g| && SlotOf(g[j].a) == k;
      assert SlotOf(h[j].a) == k;
    }
  }

  lemma PutCoherent(m: Memory, h: seq<TextStore>, s: Sys, op: TextStore)
    requires Coherent(m, h, s) && Put(s, op).Some? && Occupied(m, SlotOf(op.a))
    ensures Coherent(m, h + [op], Put(s, op).value)
  {
    hide Decode, SetField, LastWord, Touched, ValidMemory, Put;
    var t, k := Put(s, op).value, SlotOf(op.a);
    PutWrites(s, op);
    PutValid(s, t, k, t.mem.text[k]);
    DecodeKeeps(SetField(WordAt(s.mem, k), op.a % 4, op.z, op.v));
    forall j | Occupied(m, j) ensures SlotCoherent(m, h + [op], t, j) {
      assert SlotCoherent(m, h, s, j);
      LastAfter(m, h, op, j);
    }
  }

  lemma EmptyCoherent(s: Sys)
    requires ValidMemory(s.mem)
    ensures Coherent(s.mem, [], s)
  {
  }

  lemma PutOccupied(m: Memory, h: seq<TextStore>, s: Sys, op: TextStore)
    requires Coherent(m, h, s) && Put(s, op).Some? && (forall k | Occupied(s.mem, k) :: Occupied(m, k))
    ensures Occupied(m, SlotOf(op.a)) && forall k | Occupied(Put(s, op).value.mem, k) :: Occupied(m, k)
  {
    hide Decode, SetField, LastWord, Touched, ValidMemory, Put;
    PutWrites(s, op);
  }

  /** After any stores into occupied slots. */
  lemma {:induction false} RunCoherent(s: Sys, h: seq<TextStore>)
    requires ValidMemory(s.mem) && PutAll(s, h).Some?
    ensures Coherent(s.mem, h, PutAll(s, h).value)
    ensures forall k | Occupied(PutAll(s, h).value.mem, k) :: Occupied(s.mem, k)
  {
    hide Coherent, Put, ValidMemory;
    if h == [] {
      EmptyCoherent(s);
    } else {
      var g, op := h[..|h| - 1], h[|h| - 1];
      RunCoherent(s, g);
      assert g + [op] == h;
      PutOccupied(s.mem, g, PutAll(s, g).value, op);
      PutCoherent(s.mem, g, PutAll(s, g).value, op);
    }
  }

  // ---------- Reading back ----------

  /** Bytes and halves of text are read without their sign. */
  lemma ReadsText(s: Sys, h: seq<TextStore>, t: Sys, a: Word, z: Size)
    requires ValidMemory(s.mem) && PutAll(s, h) == Some(t)
    requires a % Bytes(z) == 0 && InText(s.mem, a) && Occupied(s.mem, SlotOf(a))
    ensures ReadMem(t, a, z) == Read(Field(LastWord(s.mem, h, SlotOf(a)), a % 4, z), t)
  {
    hide Decode, Field, LastWord, Touched, ValidMemory, PutAll, Mapped;
    RunCoherent(s, h);
    assert SlotCoherent(s.mem, h, t, SlotOf(a));
    TextNotMapped(t.mem, a);
  }

  function Low(v: Word, z: Size): Word { if z.Byte1? then v % 0x100 else if z.Half2? then v % 0x1_0000 else v }

  lemma FieldReadsBack(w: Word, k: nat, z: Size, v: Word)
    requires k < 4 && k % Bytes(z) == 0
    ensures Field(SetField(w, k, z, v), k, z) == Low(v, z)
  {
    hide ByteOf, Patched, Field;
    var x := SetField(w, k, z, v);
    MemoryImage.SetFieldBytes(w, k, z, v, 0);
    MemoryImage.SetFieldBytes(w, k, z, v, 1);
    MemoryImage.SetFieldBytes(w, k, z, v, 2);
    MemoryImage.SetFieldBytes(w, k, z, v, 3);
    MemoryImage.BytesJoin(x);
    MemoryImage.BytesJoin(v);
    ReadsPatched(w, k, z, v, x);
  }

  lemma ReadsPatched(w: Word, k: nat, z: Size, v: Word, x: Word)
    requires k < 4 && k % Bytes(z) == 0
    requires forall j: nat | j < 4 :: ByteOf(x, j) == Patched(w, k, z, v, j)
    ensures Field(x, k, z) == Low(v, z)
  {
    hide ByteOf;
    assert ByteOf(x, 0) == Patched(w, k, z, v, 0) && ByteOf(x, 1) == Patched(w, k, z, v, 1);
    assert ByteOf(x, 2) == Patched(w, k, z, v, 2) && ByteOf(x, 3) == Patched(w, k, z, v, 3);
    MemoryImage.BytesJoin(x);
    MemoryImage.BytesJoin(v);
    LowIs(v);
  }

  lemma LowIs(v: Word)
    ensures v % 0x100 == ByteOf(v, 0)
  {
  }

  /** What was stored last is read back: the low bits of the value. */
  lemma TextReadsBack(s: Sys, op: TextStore, t: Sys)
    requires ValidMemory(s.mem) && Put(s, op) == Some(t)
    ensures ReadMem(t, op.a, op.z) == Read(Low(op.v, op.z), t)
  {
    hide Decode, Field, SetField, ValidMemory, Mapped, Put;
    var k := SlotOf(op.a);
    var w := SetField(WordAt(s.mem, k), op.a % 4, op.z, op.v);
    PutWrites(s, op);
    DecodeKeeps(w);
    PutValid(s, t, k, t.mem.text[k]);
    PutInText(s, op);
    TextNotMapped(t.mem, op.a);
    FieldReadsBack(WordAt(s.mem, k), op.a % 4, op.z, op.v);
  }

  lemma PutInText(s: Sys, op: TextStore)
    requires Put(s, op).Some?
    ensures InText(s.mem, op.a) && op.a % Bytes(op.z) == 0 && op.a % 4 % Bytes(op.z) == 0
  {
    hide WriteMem;
    MemoryImage.OffsetAligned(op.a, op.z);
  }

  /** Storing the encoding of an instruction makes the next fetch of its slot return it; a jump also
      needs bit 24 of its target to be clear, and then only. */
  lemma StoredIsFetched(s: Sys, a: Word, i: Inst, t: Sys)
    requires ValidMemory(s.mem) && Put(s, TextStore(a, Word4, Encode(i))) == Some(t) && !i.op.INVALID?
    requires FormatOf(i.op).Jump? ==> i.target < 0x400_0000
    ensures Fetch(t, a).sys == t && Fetch(t, a).slot.Some?
    ensures SameFields(Fetch(t, a).slot.value, i) <==> (FormatOf(i.op).Jump? ==> i.target / 0x100_0000 % 2 == 0)
  {
    hide Decode, Encode, SetField, ValidMemory, Put, SameFields, FormatOf;
    PutWrites(s, TextStore(a, Word4, Encode(i)));
    PutInText(s, TextStore(a, Word4, Encode(i)));
    WholeField(WordAt(s.mem, SlotOf(a)), Encode(i));
    RoundTrip(i);
  }
}
