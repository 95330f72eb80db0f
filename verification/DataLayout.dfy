/** The data directives of the assembler: the location counter of the data segment, the bytes that
    the directives lay down, and the small items that are reached off $gp. */
module DataLayout {
  import opened Word
  import opened Instruction
  import opened Isa
  import opened MemoryImage
  import L = Linker

  // ---------- Bytes laid down ----------

  /** The memory g is m with these bytes laid down from pc on. */
  predicate LaidAt(m: Memory, g: Memory, pc: int, bytes: seq<Byte>, b: int) {
    ByteAt(g, b) == if pc <= b < pc + |bytes| then bytes[b - pc] else ByteAt(m, b)
  }

  ghost predicate Laid(m: Memory, g: Memory, pc: int, bytes: seq<Byte>) {
    (forall b: int :: LaidAt(m, g, pc, bytes, b)) && g.text == m.text && g.kText == m.kText && g.dataTop >= m.dataTop
  }

  lemma LaidNothing(m: Memory, pc: int)
    ensures Laid(m, m, pc, [])
  {
  }

  lemma LaidOn(m: Memory, g: Memory, h: Memory, pc: int, xs: seq<Byte>, ys: seq<Byte>)
    requires Laid(m, g, pc, xs) && Laid(g, h, pc + |xs|, ys)
    ensures Laid(m, h, pc, xs + ys)
  {
    hide ByteAt;
    forall b: int ensures LaidAt(m, h, pc, xs + ys, b) {
      assert LaidAt(m, g, pc, xs, b) && LaidAt(g, h, pc + |xs|, ys, b);
    }
  }

  /** The little-endian bytes of a datum. */
  function DataBytes(z: Size, v: Word): seq<Byte> {
    if z.Byte1? then [ByteOf(v, 0)]
    else if z.Half2? then [ByteOf(v, 0), ByteOf(v, 1)]
    else [ByteOf(v, 0), ByteOf(v, 1), ByteOf(v, 2), ByteOf(v, 3)]
  }

  lemma LaidByStore(m: Memory, a: Word, z: Size, v: Word)
    requires a + Bytes(z) <= 0x1_0000_0000
    ensures Laid(m, StoreBytes(m, a, z, v), a, DataBytes(z, v))
  {
    hide ByteOf, ByteAt, StoreBytes;
    forall b: int ensures LaidAt(m, StoreBytes(m, a, z, v), a, DataBytes(z, v), b) {
      StoreBytesAt(m, a, z, v, b);
    }
    StoredElsewhere(m, a, z, v);
  }

  lemma StoredElsewhere(m: Memory, a: Word, z: Size, v: Word)
    requires a + Bytes(z) <= 0x1_0000_0000
    ensures var g := StoreBytes(m, a, z, v); g == m.(bytes := g.bytes)
  {
  }

  lemma GrowthLays(m: Memory, g: Memory, h: Memory, pc: int, bytes: seq<Byte>)
    requires Laid(m, g, pc, bytes) && h == g.(dataTop := h.dataTop) && h.dataTop >= g.dataTop
    ensures Laid(m, h, pc, bytes)
  {
    forall b: int ensures LaidAt(m, h, pc, bytes, b) {
      assert LaidAt(m, g, pc, bytes, b);
    }
  }

  lemma ByteDatum(b: Byte)
    ensures DataBytes(Byte1, b) == [b]
  {
  }

  /** A word in two halves, and a half in two bytes. */
  lemma HalfBytes(v: Word)
    ensures DataBytes(Half2, v) == DataBytes(Byte1, v % 0x100) + DataBytes(Byte1, v / 0x100 % 0x100)
  {
  }

  lemma WordHalves(v: Word)
    ensures DataBytes(Word4, v) == DataBytes(Half2, v % 0x1_0000) + DataBytes(Half2, v / 0x1_0000)
  {
    var lo, hi := v % 0x1_0000, v / 0x1_0000;
    BytesJoin(v);
    BytesSplit(ByteOf(v, 0), ByteOf(v, 1), 0, 0, 0);
    BytesSplit(ByteOf(v, 0), ByteOf(v, 1), 0, 0, 1);
    BytesSplit(ByteOf(v, 2), ByteOf(v, 3), 0, 0, 0);
    BytesSplit(ByteOf(v, 2), ByteOf(v, 3), 0, 0, 1);
    assert lo == FromBytes(ByteOf(v, 0), ByteOf(v, 1), 0, 0) && hi == FromBytes(ByteOf(v, 2), ByteOf(v, 3), 0, 0);
  }

  /** A data directive. */
  datatype Datum = Number(z: Size, v: Word) | Text(s: seq<Byte>, nul: bool)

  function BytesOfDatum(d: Datum): seq<Byte> {
    match d
    case Number(z, v) => DataBytes(z, v)
    case Text(s, nul) => s + if nul then [0] else []
  }

  function BytesOfAll(ds: seq<Datum>): seq<Byte> {
    if ds == [] then [] else BytesOfAll(ds[..|ds| - 1]) + BytesOfDatum(ds[|ds| - 1])
  }

  lemma NoBytes()
    ensures BytesOfAll([]) == []
  {
  }

  lemma OneMore(ds: seq<Datum>, i: nat)
    requires i < |ds|
    ensures BytesOfAll(ds[..i + 1]) == BytesOfAll(ds[..i]) + BytesOfDatum(ds[i])
  {
    assert ds[..i + 1][..i] == ds[..i];
  }

  function Zeros(n: int): seq<Byte> { seq(if n > 0 then n else 0, _ => 0) }

  function RoundUp64K(n: int): int { (n + 0xffff) / 0x1_0000 * 0x1_0000 }

  lemma RoundsUp(n: int)
    requires n >= 1
    ensures n <= RoundUp64K(n) <= n + 0xffff && RoundUp4(RoundUp64K(n)) == RoundUp64K(n)
  {
    DivMod(n + 0xffff, 0x1_0000);
  }

  lemma {:induction false} PrefixBytes(ds: seq<Datum>, i: nat)
    requires i <= |ds|
    ensures |BytesOfAll(ds[..i])| <= |BytesOfAll(ds)|
    decreases |ds| - i
  {
    if i == |ds| {
      assert ds[..i] == ds;
    } else {
      assert ds[..i + 1][..i] == ds[..i];
      PrefixBytes(ds, i + 1);
    }
  }

  // ---------- Items off $gp ----------

  /** An item in the 64K below the ordinary data. */
  datatype GpItem = GpItem(name: string, addr: Word, size: nat)

  /** The items are laid out one after the other, from base up to `end`. */
  predicate Arranged(items: seq<GpItem>, base: int, end: int) {
    if items == [] then base <= end
    else
      var last := items[|items| - 1];
      0 < last.size <= 8 && last.addr + last.size == end && Arranged(items[..|items| - 1], base, last.addr)
  }

  lemma {:induction false} ArrangedWithin(items: seq<GpItem>, base: int, end: int, i: nat)
    requires Arranged(items, base, end) && i < |items|
    ensures base <= items[i].addr && items[i].addr + items[i].size <= end && items[i].size > 0
    decreases |items|
  {
    var n := |items| - 1;
    if i < n {
      ArrangedWithin(items[..n], base, items[n].addr, i);
    } else if n > 0 {
      ArrangedWithin(items[..n], base, items[n].addr, n - 1);
    }
  }

  /** The items do not overlap. */
  lemma {:induction false} ItemsDisjoint(items: seq<GpItem>, base: int, end: int, i: nat, j: nat)
    requires Arranged(items, base, end) && i < j < |items|
    ensures items[i].addr + items[i].size <= items[j].addr
    decreases |items|
  {
    var n := |items| - 1;
    if j < n {
      ItemsDisjoint(items[..n], base, items[n].addr, i, j);
    } else {
      ArrangedWithin(items[..n], base, items[n].addr, i);
    }
  }

  /** Each byte of each item is within a signed 16-bit displacement of $gp. */
  lemma ItemsReachable(items: seq<GpItem>, base: int, end: int, i: nat, k: nat)
    requires Arranged(items, base, end) && end < base + 0x1_0000 && i < |items| && k < items[i].size
    ensures -0x8000 <= items[i].addr + k - (base + 0x8000) < 0x8000
  {
    ArrangedWithin(items, base, end, i);
  }

  /** Why the counter must stay below the top of the segment: a byte stored at the top itself raises a
      data bus exception, and one stored below it does not. */
  lemma StoreAtTop(s: Sys, a: Word, v: Word)
    requires ValidMemory(s.mem) && DATA_BOT <= a <= s.mem.dataTop < s.mem.stackBot && !s.exc
    ensures WriteMem(s, a, Byte1, v).Some?
    ensures !WriteMem(s, a, Byte1, v).value.exc <==> a < s.mem.dataTop
  {
    hide StoreBytes, GrowStack;
    FaultRaises(s, a);
    StoredElsewhereIn(s.mem, a, v);
  }

  lemma FaultRaises(s: Sys, a: Word)
    ensures Fault(s, EXC_DBE, a).exc
  {
  }

  lemma StoredElsewhereIn(m: Memory, a: Word, v: Word)
    requires ValidMemory(m) && DATA_BOT <= a <= m.dataTop
    ensures !InText(m, a) && a + 1 <= 0x1_0000_0000 && (a == m.dataTop ==> !Mapped(m, a) || a >= m.stackBot)
  {
  }

  class DataDirectives {
    const memory: MemImage
    var nextDataPc: Word
    var nextGpItem: Word
    var gpMidpoint: Word
    var labels: L.Labels

    /** The items off $gp so far. */
    ghost var items: seq<GpItem>

    /** Data is laid down below the top of the data segment. */
    ghost predicate Valid()
      reads this, memory
    {
      memory.Valid() && DATA_BOT <= nextDataPc < memory.dataTop
    }

    /** Since the memory was m, with the counter at pc, these bytes have been laid down there. */
    ghost predicate Lays(m: Memory, pc: Word, bytes: seq<Byte>)
      reads this, memory
    {
      Valid() && nextDataPc == pc + |bytes| && Laid(m, memory.model, pc, bytes)
    }

    /** The data segment may not grow as far as 64K above this address. */
    predicate Short(end: int) { memory.dataLimit < end + 0x1_0000 - DATA_BOT }

    /** The $gp area begins at addr, and ordinary data 64K above it. Bytes can be stored there at once
        if the data segment reaches beyond that point already. */
    constructor (memory: MemImage, addr: Word)
      requires memory.Valid() && DATA_BOT <= addr <= memory.dataTop
      ensures Small(addr) && items == [] && this.memory == memory
      ensures Valid() <==> addr + 0x1_0000 < memory.dataTop
      ensures nextDataPc == addr + 0x1_0000 && labels == map[]
    {
      this.memory := memory;
      nextGpItem := addr;
      gpMidpoint := addr + 0x8000;
      nextDataPc := addr + 0x1_0000;
      labels := map[];
      items := [];
    }

    lemma LaysMore(m: Memory, g: Memory, pc: Word, xs: seq<Byte>, ys: seq<Byte>)
      requires Laid(m, g, pc, xs) && pc + |xs| < 0x1_0000_0000 && Lays(g, pc + |xs|, ys)
      ensures Lays(m, pc, xs + ys)
    {
      LaidOn(m, g, memory.model, pc, xs, ys);
    }

    /** Move the counter, and grow the segment by multiples of 64K to stay above it. */
    method IncrementDataPc(delta: nat) returns (ok: bool)
      requires memory.Valid() && DATA_BOT <= nextDataPc < memory.dataTop && delta <= 4
      modifies this`nextDataPc, memory
      ensures !ok ==> Short(old(nextDataPc) + delta)
      ensures ok ==> Valid() && nextDataPc == old(nextDataPc) + delta
      ensures ok ==>
              && memory.model == old(memory.model).(dataTop := memory.model.dataTop)
              && memory.model.dataTop >= old(memory.model.dataTop)
    {
      nextDataPc := nextDataPc + delta;
      if memory.dataTop <= nextDataPc {
        RoundsUp(nextDataPc - memory.dataTop + 1);
        ok := memory.ExpandData(RoundUp64K(nextDataPc - memory.dataTop + 1));
      } else {
        ok := true;
      }
    }

    /** An aligned datum, stored in one piece. */
    method StoreWhole(z: Size, v: Word) returns (ok: bool)
      requires Valid() && nextDataPc % Bytes(z) == 0
      modifies this`nextDataPc, memory
      ensures !ok ==> Short(old(nextDataPc) + |DataBytes(z, v)|)
      ensures ok ==> Lays(old(memory.model), old(nextDataPc), DataBytes(z, v))
    {
      ghost var m, pc := memory.model, nextDataPc;
      memory.Poke(nextDataPc, z, v);
      ghost var g := memory.model;
      LaidByStore(m, pc, z, v);
      ok := IncrementDataPc(Bytes(z));
      if ok { GrowthLays(m, g, memory.model, pc, DataBytes(z, v)); }
    }

    method StoreByte(v: Word) returns (ok: bool)
      requires Valid()
      modifies this`nextDataPc, memory
      ensures !ok ==> Short(old(nextDataPc) + |DataBytes(Byte1, v)|)
      ensures ok ==> Lays(old(memory.model), old(nextDataPc), DataBytes(Byte1, v))
    {
      ok := StoreWhole(Byte1, v);
    }

    /** Two bytes when the counter is odd. */
    method StoreHalf(v: Word) returns (ok: bool)
      requires Valid()
      modifies this`nextDataPc, memory
      ensures !ok ==> Short(old(nextDataPc) + |DataBytes(Half2, v)|)
      ensures ok ==> Lays(old(memory.model), old(nextDataPc), DataBytes(Half2, v))
    {
      if nextDataPc % 2 != 0 {
        ghost var m, pc := memory.model, nextDataPc;
        ok := StoreByte(v % 0x100);
        if !ok { return; }
        ghost var g := memory.model;
        ok := StoreByte(v / 0x100 % 0x100);
        if ok {
          HalfBytes(v);
          LaysMore(m, g, pc, DataBytes(Byte1, v % 0x100), DataBytes(Byte1, v / 0x100 % 0x100));
        }
      } else {
        ok := StoreWhole(Half2, v);
      }
    }

    /** Two halves when the counter is not at a word. */
    method StoreWord(v: Word) returns (ok: bool)
      requires Valid()
      modifies this`nextDataPc, memory
      ensures !ok ==> Short(old(nextDataPc) + |DataBytes(Word4, v)|)
      ensures ok ==> Lays(old(memory.model), old(nextDataPc), DataBytes(Word4, v))
    {
      if nextDataPc % 4 != 0 {
        ghost var m, pc := memory.model, nextDataPc;
        ok := StoreHalf(v % 0x1_0000);
        if !ok { return; }
        ghost var g := memory.model;
        ok := StoreHalf(v / 0x1_0000);
        if ok {
          WordHalves(v);
          LaysMore(m, g, pc, DataBytes(Half2, v % 0x1_0000), DataBytes(Half2, v / 0x1_0000));
        }
      } else {
        ok := StoreWhole(Word4, v);
      }
    }

    method StoreString(s: seq<Byte>, nul: bool) returns (ok: bool)
      requires Valid()
      modifies this`nextDataPc, memory
      ensures !ok ==> Short(old(nextDataPc) + |s + if nul then [0] else []|)
      ensures ok ==> Lays(old(memory.model), old(nextDataPc), s + if nul then [0] else [])
    {
      hide Laid, DataBytes, ByteOf;
      ghost var m, pc := memory.model, nextDataPc;
      LaidNothing(m, pc);
      var i := 0;
      ByteDatum(0);
      while i < |s|
        invariant 0 <= i <= |s| && Lays(m, pc, s[..i])
      {
        ghost var g := memory.model;
        ByteDatum(s[i]);
        ok := StoreByte(s[i]);
        if !ok { return; }
        LaysMore(m, g, pc, s[..i], DataBytes(Byte1, s[i]));
        assert s[..i] + [s[i]] == s[..i + 1];
        i := i + 1;
      }
      assert s[..|s|] == s;
      if nul {
        ghost var g := memory.model;
        ok := StoreByte(0);
        if ok { LaysMore(m, g, pc, s, DataBytes(Byte1, 0)); }
      } else {
        assert s + [] == s;
        ok := true;
      }
    }

    method Store(d: Datum) returns (ok: bool)
      requires Valid()
      modifies this`nextDataPc, memory
      ensures !ok ==> Short(old(nextDataPc) + |BytesOfDatum(d)|)
      ensures ok ==> Lays(old(memory.model), old(nextDataPc), BytesOfDatum(d))
    {
      match d
      case Number(z, v) =>
        if z.Byte1? { ok := StoreByte(v); } else if z.Half2? { ok := StoreHalf(v); } else { ok := StoreWord(v); }
      case Text(s, nul) =>
        ok := StoreString(s, nul);
    }

    /** Any directives lay down exactly their bytes, one after the other, wherever they begin. */
    method StoreAll(ds: seq<Datum>) returns (ok: bool)
      requires Valid()
      modifies this`nextDataPc, memory
      ensures !ok ==> Short(old(nextDataPc) + |BytesOfAll(ds)|)
      ensures ok ==> Lays(old(memory.model), old(nextDataPc), BytesOfAll(ds))
    {
      hide Laid, BytesOfDatum, BytesOfAll;
      ghost var m, pc := memory.model, nextDataPc;
      LaidNothing(m, pc);
      NoBytes();
      var i := 0;
      while i < |ds|
        invariant 0 <= i <= |ds| && Lays(m, pc, BytesOfAll(ds[..i]))
      {
        ghost var g := memory.model;
        PrefixBytes(ds, i + 1);
        OneMore(ds, i);
        ok := Store(ds[i]);
        if !ok { return; }
        LaysMore(m, g, pc, BytesOfAll(ds[..i]), BytesOfDatum(ds[i]));
        i := i + 1;
      }
      assert ds[..|ds|] == ds;
      ok := true;
    }

    // ---------- Small items ----------

    /** The items lie one after the other in the 64K from base on, and ordinary data above them; the
        label of each item has its address. */
    ghost predicate Small(base: Word)
      reads this
    {
      && Arranged(items, base, nextGpItem) && nextGpItem < base + 0x1_0000 <= nextDataPc && gpMidpoint == base + 0x8000
      && forall i | 0 <= i < |items| :: Labelled(items[i])
    }

    ghost predicate Labelled(it: GpItem)
      reads this
    {
      var l := L.LabelOf(it.name, labels); l.gp && l.addr == it.addr
    }

    predicate FitsSmall(size: int)
      reads this
    {
      0 < size <= 8 && nextGpItem + size < gpMidpoint + 0x8000
    }

    ghost method Place(base: Word, before: L.Labels, name: string, addr: Word, size: nat)
      requires 0 < size <= 8 && addr + size == nextGpItem && !L.LabelOf(name, before).gp
      requires Arranged(items, base, addr) && nextGpItem < base + 0x1_0000 <= nextDataPc && gpMidpoint == base + 0x8000
      requires forall i | 0 <= i < |items| :: L.LabelOf(items[i].name, before) == Gp(items[i].addr, L.LabelOf(items[i].name, before))
      requires labels == before[name := Gp(addr, L.LabelOf(name, before))]
      modifies this`items
      ensures Small(base) && items == old(items) + [GpItem(name, addr, size)]
    {
      var it := GpItem(name, addr, size);
      assert (items + [it])[..|items|] == items;
      forall i | 0 <= i < |items| ensures Labelled(items[i]) { }
      items := items + [it];
    }

    /** .extern: a small symbol gets a place off $gp, unless it has one. */
    method ExternDirective(name: string, size: int, ghost base: Word)
      requires Small(base)
      modifies this`labels, this`nextGpItem, this`items
      ensures Small(base)
      ensures var l := old(L.LabelOf(name, labels));
              if !l.gp && 0 < size <= 8 && old(nextGpItem) + size < old(gpMidpoint) + 0x8000
              then items == old(items) + [GpItem(name, old(nextGpItem), size)]
                   && labels == old(labels)[name := Gp(old(nextGpItem), l)]
              else items == old(items) && labels == old(labels) && nextGpItem == old(nextGpItem)
    {
      var l := L.LabelOf(name, labels);
      if !l.gp && FitsSmall(size) {
        ghost var before, addr := labels, nextGpItem;
        labels := labels[name := Gp(nextGpItem, l)];
        nextGpItem := nextGpItem + size;
        Place(base, before, name, addr, size);
      }
    }

    /** .lcomm of a fresh name: a small item gets a place off $gp, a larger one zero bytes of ordinary
        data. */
    method LcommDirective(name: string, size: int, ghost base: Word) returns (ok: bool)
      requires Valid() && Small(base) && L.LabelOf(name, labels) == L.Label(0, false, [])
      modifies this, memory
      ensures ok ==> Valid() && Small(base)
      ensures !ok ==> Short(old(nextDataPc) + size)
      ensures 0 < size <= 8 && old(nextGpItem) + size < old(gpMidpoint) + 0x8000 ==>
                ok && memory.model == old(memory.model) && items == old(items) + [GpItem(name, old(nextGpItem), size)]
                && L.AddressOf(name, labels) == old(nextGpItem)
      ensures ok && !(0 < size <= 8 && old(nextGpItem) + size < old(gpMidpoint) + 0x8000) ==>
                items == old(items) && L.AddressOf(name, labels) == old(nextDataPc)
                && Lays(old(memory.model), old(nextDataPc), Zeros(size))
    {
      if FitsSmall(size) {
        ghost var before, addr := labels, nextGpItem;
        labels := labels[name := Gp(nextGpItem, L.Label(0, false, []))];
        nextGpItem := nextGpItem + size;
        Place(base, before, name, addr, size);
        return true;
      }
      labels := labels[name := L.Label(nextDataPc, false, [])];
      ok := StoreZeros(size);
    }

    method StoreZeros(size: int) returns (ok: bool)
      requires Valid()
      modifies this`nextDataPc, memory
      ensures !ok ==> Short(old(nextDataPc) + size)
      ensures ok ==> Lays(old(memory.model), old(nextDataPc), Zeros(size))
    {
      ghost var m, pc := memory.model, nextDataPc;
      LaidNothing(m, pc);
      var n := size;
      ghost var k: nat := 0;
      while n > 0
        invariant if size > 0 then k + n == size && n >= 0 else n == size && k == 0
        invariant Lays(m, pc, Zeros(k))
      {
        ghost var g := memory.model;
        ok := StoreByte(0);
        if !ok { return; }
        LaysMore(m, g, pc, Zeros(k), DataBytes(Byte1, 0));
        assert Zeros(k) + [0] == Zeros(k + 1);
        n := n - 1;
        k := k + 1;
      }
      ok := true;
    }

    /** The base register and expression for offs + sym off register reg: a symbol with a place off $gp
        goes through $gp. Both denote the same address. */
    method MakeAddrExpr(offs: Int32, sym: Option<string>, reg: Reg) returns (base: Reg, e: ImmExpr)
      ensures sym.Some? && reg == 0 && L.LabelOf(sym.value, labels).gp ==>
                base == 28 && e == L.Const(Signed(Wrap(offs + L.AddressOf(sym.value, labels) - gpMidpoint)))
      ensures e.bits == 0 && !e.pcRelative
      ensures (sym.Some? ==> L.AddressOf(sym.value, labels) != 0) ==>
                forall r: Bank | r[0] == 0 && r[28] == gpMidpoint :: Denotes(r, base, e, r[reg], offs, sym)
    {
      if reg == 0 && sym.Some? && L.LabelOf(sym.value, labels).gp {
        var l := L.LabelOf(sym.value, labels);
        OffGp(offs, l.addr, gpMidpoint);
        return 28, ImmExpr(Signed(Wrap(offs + l.addr - gpMidpoint)), None, 0, false);
      }
      base, e := reg, ImmExpr(offs, sym, 0, false);
      if sym.Some? ==> L.AddressOf(sym.value, labels) != 0 {
        forall r: Bank ensures Denotes(r, base, e, r[reg], offs, sym) {
          PlainSum(r[reg], offs, if sym.Some? then L.AddressOf(sym.value, labels) else 0);
        }
      }
    }

    /** The expression e off register base stands for x + offs + sym. */
    predicate Denotes(r: Bank, base: Reg, e: ImmExpr, x: Word, offs: Int32, sym: Option<string>)
      reads this
    {
      Wrap(r[base] + L.Total(e, labels)) == Wrap(x + offs + if sym.Some? then L.AddressOf(sym.value, labels) else 0)
    }
  }

  function Gp(addr: Word, l: L.Label): L.Label { l.(addr := addr, gp := true) }

  lemma OffGp(offs: Int32, addr: Word, gp: Word)
    ensures Wrap(gp + Wrap(Signed(Wrap(offs + addr - gp)))) == Wrap(offs + addr)
  {
    var x := Wrap(offs + addr - gp);
    WrapSigned(x);
    WrapParts(offs + addr - gp);
    SameWrap(gp + x, offs + addr, -((offs + addr - gp) / 0x1_0000_0000));
  }

  lemma PlainSum(base: Word, offs: Int32, addr: Word)
    ensures Wrap(base + Wrap(offs + addr)) == Wrap(base + offs + addr)
  {
    WrapParts(offs + addr);
    SameWrap(base + Wrap(offs + addr), base + offs + addr, -((offs + addr) / 0x1_0000_0000));
  }
}
