/** The simulator's memory: one vector of words per segment, seen also as bytes and as halves. */
module MemoryImage {
  import opened Word
  import opened Instruction
  import opened Isa

  /** A word is its two halves, and a half its two bytes. */
  lemma BytesJoin(w: Word)
    ensures w == FromBytes(ByteOf(w, 0), ByteOf(w, 1), ByteOf(w, 2), ByteOf(w, 3))
    ensures w % 0x1_0000 == ByteOf(w, 0) + 0x100 * ByteOf(w, 1)
    ensures w / 0x1_0000 == ByteOf(w, 2) + 0x100 * ByteOf(w, 3)
  {
    var lo, hi := w % 0x1_0000, w / 0x1_0000;
    LowBytes(w, hi, lo);
    HighBytes(w, hi);
  }

  lemma LowBytes(w: Word, hi: int, lo: int)
    requires w == hi * 0x1_0000 + lo && 0 <= lo < 0x1_0000
    ensures lo == ByteOf(w, 0) + 0x100 * ByteOf(w, 1)
  {
    var q := lo / 0x100;
    ModUnique(w, 0x100, hi * 0x100 + q, lo - q * 0x100);
  }

  lemma HighBytes(w: Word, hi: int)
    requires hi == w / 0x1_0000
    ensures hi == ByteOf(w, 2) + 0x100 * ByteOf(w, 3)
  {
    var q := hi / 0x100;
    ModUnique(w, 0x100_0000, q, w - q * 0x100_0000);
  }

  lemma BytesSplit(b0: Byte, b1: Byte, b2: Byte, b3: Byte, j: nat)
    ensures ByteOf(FromBytes(b0, b1, b2, b3), j) ==
            if j == 0 then b0 else if j == 1 then b1 else if j == 2 then b2 else b3
  {
    var w := FromBytes(b0, b1, b2, b3);
    assert w / 0x100 == b1 + 0x100 * b2 + 0x1_0000 * b3;
    assert w / 0x1_0000 == b2 + 0x100 * b3;
    assert w / 0x100_0000 == b3;
  }

  /** Storing into a field of a word changes exactly the field's bytes. */
  lemma SetFieldBytes(w: Word, k: nat, z: Size, v: Word, j: nat)
    requires j < 4
    ensures ByteOf(SetField(w, k, z, v), j) == Patched(w, k, z, v, j)
  {
    BytesSplit(Patched(w, k, z, v, 0), Patched(w, k, z, v, 1), Patched(w, k, z, v, 2), Patched(w, k, z, v, 3), j);
  }

  lemma StoreBytesAt(m: Memory, a: Word, z: Size, v: Word, b: int)
    requires a + Bytes(z) <= 0x1_0000_0000
    ensures ByteAt(StoreBytes(m, a, z, v), b) == if a <= b < a + Bytes(z) then ByteOf(v, b - a) else ByteAt(m, b)
  {
  }

  /** A field is the number made of its bytes. */
  lemma FieldIsBytes(w: Word, a: Word, z: Size, m: Memory)
    requires a % Bytes(z) == 0
    requires forall b :: a <= b < a + Bytes(z) ==> ByteAt(m, b) == ByteOf(w, b % 4)
    ensures Field(w, a % 4, z) == LoadBytes(m, a, z)
  {
    BytesJoin(w);
  }

  /** Storing a field in the word of a is storing its bytes. */
  lemma PatchedWord(m: Memory, a: Word, z: Size, v: Word, b: Word, before: Word, after: Word)
    requires a % Bytes(z) == 0 && a + Bytes(z) <= 0x1_0000_0000
    requires ByteAt(m, b) == ByteOf(before, b % 4)
    requires after == if b / 4 == a / 4 then SetField(before, a % 4, z, v) else before
    ensures ByteAt(StoreBytes(m, a, z, v), b) == ByteOf(after, b % 4)
  {
    StoreBytesAt(m, a, z, v, b);
    if b / 4 == a / 4 { SetFieldBytes(before, a % 4, z, v, b % 4); }
  }

  lemma WholeWords(oldSize: int, addl: int, words: int, n: int)
    requires oldSize == 4 * words && addl >= 0 && n == (oldSize + RoundUp4(addl)) / 4 - words
    ensures n >= 0 && RoundUp4(addl) == 4 * n && oldSize / 4 == words
  {
  }

  lemma OffsetAligned(a: Word, z: Size)
    requires a % Bytes(z) == 0
    ensures a % 4 % Bytes(z) == 0
  {
    if z.Half2? {
      var h := a / 2;
      ModUnique(a, 4, h / 2, 2 * (h % 2));
    }
  }

  lemma InWords(n: int)
    requires n % 4 == 0
    ensures 4 * (n / 4) == n
  {
  }

  /** The k low bytes of w are zero. */
  predicate LowClear(w: Word, k: nat) { forall j: nat | j < k && j < 4 :: ByteOf(w, j) == 0 }

  lemma ClearedByte(w: Word, k: nat)
    requires k < 4 && LowClear(w, k)
    ensures LowClear(SetField(w, k, Byte1, 0), k + 1)
  {
    forall j: nat | j <= k ensures ByteOf(SetField(w, k, Byte1, 0), j) == 0 {
      SetFieldBytes(w, k, Byte1, 0, j);
    }
  }

  lemma NoneClear(w: Word)
    ensures LowClear(w, 0)
  {
  }

  lemma AllClear(w: Word)
    requires LowClear(w, 4)
    ensures w == 0
  {
    assert ByteOf(w, 0) == 0 && ByteOf(w, 1) == 0 && ByteOf(w, 2) == 0 && ByteOf(w, 3) == 0;
    BytesJoin(w);
  }

  function ZeroWords(n: nat): (r: seq<Word>)
    ensures |r| == n && forall k | 0 <= k < n :: r[k] == 0
  {
    seq(n, _ => 0)
  }

  predicate ValidSizes(dataBytes: int, dataLimit: int, stackBytes: int, stackLimit: int) {
    && 0 <= dataBytes <= dataLimit && dataBytes % 4 == 0
    && 0 <= stackBytes <= stackLimit && stackBytes % 4 == 0
    && dataLimit + stackLimit <= STACK_TOP - DATA_BOT
  }

  /** The segment vectors, as values. */
  datatype Vectors = Vectors(text: seq<Slot>, kText: seq<Slot>,
                             data: seq<Word>, dataTop: Word, dataLimit: int,
                             stack: seq<Word>, stackBot: Word, stackLimit: int,
                             kData: seq<Word>, kDataTop: Word, special: seq<Word>)
  {
    ghost predicate Valid() {
      && ValidSizes(dataTop - DATA_BOT, dataLimit, STACK_TOP - stackBot, stackLimit)
      && 4 * |data| == dataTop - DATA_BOT
      && 4 * |stack| == STACK_TOP - stackBot
      && K_DATA_BOT <= kDataTop <= SPECIAL_BOT && kDataTop % 4 == 0 && 4 * |kData| == kDataTop - K_DATA_BOT
      && 4 * |special| == SPECIAL_TOP - SPECIAL_BOT
      && TEXT_BOT + 4 * |text| <= DATA_BOT
      && K_TEXT_BOT + 4 * |kText| <= K_DATA_BOT
    }

    predicate Has(a: int) {
      DATA_BOT <= a < dataTop || stackBot <= a < STACK_TOP || K_DATA_BOT <= a < kDataTop ||
        SPECIAL_BOT <= a < SPECIAL_TOP
    }

    /** The word of a segment that holds address a. */
    function WordAt(a: int): Word
      requires Valid() && Has(a)
    {
      if DATA_BOT <= a < dataTop then data[a / 4 - DATA_BOT / 4]
      else if stackBot <= a < STACK_TOP then stack[a / 4 - stackBot / 4]
      else if K_DATA_BOT <= a < kDataTop then kData[a / 4 - K_DATA_BOT / 4]
      else special[a / 4 - SPECIAL_BOT / 4]
    }

    function Put(a: int, w: Word): Vectors
      requires Valid() && Has(a)
    {
      if DATA_BOT <= a < dataTop then this.(data := data[a / 4 - DATA_BOT / 4 := w])
      else if stackBot <= a < STACK_TOP then this.(stack := stack[a / 4 - stackBot / 4 := w])
      else if K_DATA_BOT <= a < kDataTop then this.(kData := kData[a / 4 - K_DATA_BOT / 4 := w])
      else this.(special := special[a / 4 - SPECIAL_BOT / 4 := w])
    }

    /** The vectors hold the bytes of the flat memory m. */
    ghost predicate Holds(m: Memory)
      requires Valid()
    {
      && m.dataTop == dataTop && m.stackBot == stackBot && m.kDataTop == kDataTop
      && m.dataLimit == dataLimit && m.stackLimit == stackLimit
      && m.text == text && m.kText == kText
      && (forall a :: a in m.bytes ==> Has(a))
      && (forall a :: Has(a) ==> ByteAt(m, a) == ByteOf(WordAt(a), a % 4))
    }

    /** The bytes of an aligned access lie in one word of one segment. */
    lemma SameWord(a: Word, n: nat)
      requires Valid() && Has(a) && a % 4 + n < 4
      ensures forall b :: a <= b <= a + n ==> Has(b) && WordAt(b) == WordAt(a)
    {
      assert forall b :: a <= b <= a + n ==> b / 4 == a / 4;
    }

    lemma LoadsField(m: Memory, a: Word, z: Size)
      requires Valid() && Holds(m) && Has(a) && a % Bytes(z) == 0
      ensures Field(WordAt(a), a % 4, z) == LoadBytes(m, a, z)
    {
      SameWord(a, Bytes(z) - 1);
      FieldIsBytes(WordAt(a), a, z, m);
    }

    lemma PutIsLocal(a: Word, w: Word, b: Word)
      requires Valid() && Has(a) && Has(b)
      ensures Put(a, w).Valid() && Put(a, w).WordAt(b) == if b / 4 == a / 4 then w else WordAt(b)
    {
    }

    lemma PutByte(m: Memory, a: Word, z: Size, v: Word, b: Word, next: Vectors)
      requires Valid() && Holds(m) && Has(a) && Has(b) && a % Bytes(z) == 0 && a + Bytes(z) <= 0x1_0000_0000
      requires next == Put(a, SetField(WordAt(a), a % 4, z, v))
      ensures next.Valid() && next.Has(b) && ByteAt(StoreBytes(m, a, z, v), b) == ByteOf(next.WordAt(b), b % 4)
    {
      PutIsLocal(a, SetField(WordAt(a), a % 4, z, v), b);
      if b / 4 == a / 4 { SameLine(a, b); }
      PatchedWord(m, a, z, v, b, WordAt(b), next.WordAt(b));
    }

    lemma StoreKeys(m: Memory, a: Word, z: Size, v: Word, b: int)
      requires Valid() && Holds(m) && Has(a) && a % Bytes(z) == 0 && a + Bytes(z) <= 0x1_0000_0000
      requires b in StoreBytes(m, a, z, v).bytes
      ensures Has(b)
    {
      SameWord(a, Bytes(z) - 1);
    }

    lemma PutFits(a: Word, z: Size, w: Word)
      requires Valid() && Has(a) && a % Bytes(z) == 0
      ensures a + Bytes(z) <= 0x1_0000_0000 && Put(a, w).Valid()
      ensures forall b :: Put(a, w).Has(b) <==> Has(b)
    {
    }

    lemma PutHolds(m: Memory, a: Word, z: Size, v: Word, next: Vectors)
      requires Valid() && Holds(m) && Has(a) && a % Bytes(z) == 0
      requires next == Put(a, SetField(WordAt(a), a % 4, z, v))
      ensures a + Bytes(z) <= 0x1_0000_0000 && next.Valid() && next.Holds(StoreBytes(m, a, z, v))
    {
      PutFits(a, z, SetField(WordAt(a), a % 4, z, v));
      var m' := StoreBytes(m, a, z, v);
      forall b | Has(b) ensures ByteAt(m', b) == ByteOf(next.WordAt(b), b % 4) {
        PutByte(m, a, z, v, b, next);
      }
      forall b | b in m'.bytes ensures Has(b) {
        StoreKeys(m, a, z, v, b);
      }
    }

    lemma SameLine(a: Word, b: Word)
      requires Valid() && Has(a) && Has(b) && a / 4 == b / 4
      ensures WordAt(a) == WordAt(b)
    {
    }

    lemma TextHolds(m: Memory, n: nat, slot: Slot, next: Vectors)
      requires Valid() && Holds(m) && n < |text| && next == this.(text := text[n := slot])
      ensures next.Valid() && next.Holds(m.(text := m.text[n := slot]))
    {
      forall a | next.Has(a) ensures Has(a) && next.WordAt(a) == WordAt(a) {
      }
    }

    /** Vectors of zeros hold a memory that nothing was stored to. */
    lemma FreshHolds(m: Memory)
      requires Valid() && m == Memory(map[], dataTop, stackBot, kDataTop, dataLimit, stackLimit, text, kText)
      requires forall k | 0 <= k < |data| :: data[k] == 0
      requires forall k | 0 <= k < |stack| :: stack[k] == 0
      requires forall k | 0 <= k < |kData| :: kData[k] == 0
      requires forall k | 0 <= k < |special| :: special[k] == 0
      ensures Holds(m)
    {
      forall a | Has(a) ensures ByteAt(m, a) == ByteOf(WordAt(a), a % 4) {
        assert WordAt(a) == 0;
      }
    }

    /** Growing the stack by n words of zeros at the bottom. */
    lemma StackGrowthHolds(m: Memory, n: nat, next: Vectors)
      requires Valid() && Holds(m)
      requires STACK_TOP - stackBot + 4 * n <= stackLimit
      requires 0 <= stackBot - 4 * n
      requires next == this.(stack := ZeroWords(n) + stack, stackBot := stackBot - 4 * n)
      ensures next.Valid() && next.Holds(m.(stackBot := stackBot - 4 * n))
    {
      forall b | next.Has(b) ensures ByteAt(m, b) == ByteOf(next.WordAt(b), b % 4) {
        if next.stackBot <= b < stackBot {
          assert next.WordAt(b) == 0 && !Has(b);
        } else {
          assert next.WordAt(b) == WordAt(b);
        }
      }
    }

    lemma DataGrowthHolds(m: Memory, n: nat, next: Vectors)
      requires Valid() && Holds(m)
      requires dataTop - DATA_BOT + 4 * n <= dataLimit
      requires next == this.(data := data + ZeroWords(n), dataTop := dataTop + 4 * n)
      ensures next.Valid() && next.Holds(m.(dataTop := dataTop + 4 * n))
    {
      forall b | next.Has(b) ensures ByteAt(m, b) == ByteOf(next.WordAt(b), b % 4) {
        if dataTop <= b < next.dataTop {
          assert next.WordAt(b) == 0 && !Has(b);
        } else {
          assert next.WordAt(b) == WordAt(b);
        }
      }
    }
  }

  class MemImage {
    var textSeg: seq<Slot>
    var kTextSeg: seq<Slot>
    var dataSeg: seq<Word>
    var dataTop: Word
    var stackSeg: seq<Word>
    var stackBot: Word
    var kDataSeg: seq<Word>
    var kDataTop: Word
    var specialSeg: seq<Word>
    const dataLimit: int
    const stackLimit: int

    /** The flat memory that the vectors hold. */
    ghost var model: Memory

    function View(): Vectors
      reads this
    {
      Vectors(textSeg, kTextSeg, dataSeg, dataTop, dataLimit, stackSeg, stackBot, stackLimit, kDataSeg, kDataTop, specialSeg)
    }

    ghost predicate Valid()
      reads this
    {
      View().Valid() && View().Holds(model)
    }

    /** Fresh memory: all words zero. */
    constructor (textWords: nat, dataSize: int, dataLimit: int, stackSize: nat, stackLimit: int,
                 kTextWords: nat, kDataSize: nat)
      requires TEXT_BOT + 4 * textWords <= DATA_BOT && K_TEXT_BOT + 4 * kTextWords <= K_DATA_BOT
      requires K_DATA_BOT + RoundUp4(kDataSize) <= SPECIAL_BOT
      requires ValidSizes(RoundUp4(if dataSize <= 0x1_0000 then 0x1_0000 else dataSize), dataLimit,
                          RoundUp4(stackSize), stackLimit)
      ensures Valid()
      ensures model == Memory(map[], DATA_BOT + RoundUp4(if dataSize <= 0x1_0000 then 0x1_0000 else dataSize),
                           STACK_TOP - RoundUp4(stackSize), K_DATA_BOT + RoundUp4(kDataSize), dataLimit, stackLimit,
                           seq(textWords, _ => Slot.None), seq(kTextWords, _ => Slot.None))
    {
      var dataBytes := RoundUp4(if dataSize <= 0x1_0000 then 0x1_0000 else dataSize);
      textSeg := seq(textWords, _ => Slot.None);
      kTextSeg := seq(kTextWords, _ => Slot.None);
      dataSeg := seq(dataBytes / 4, _ => 0);
      dataTop := DATA_BOT + dataBytes;
      stackSeg := seq(RoundUp4(stackSize) / 4, _ => 0);
      stackBot := STACK_TOP - RoundUp4(stackSize);
      kDataSeg := seq(RoundUp4(kDataSize) / 4, _ => 0);
      kDataTop := K_DATA_BOT + RoundUp4(kDataSize);
      specialSeg := seq((SPECIAL_TOP - SPECIAL_BOT) / 4, _ => 0);
      this.dataLimit := dataLimit;
      this.stackLimit := stackLimit;
      model := Memory(map[], DATA_BOT + dataBytes, STACK_TOP - RoundUp4(stackSize), K_DATA_BOT + RoundUp4(kDataSize),
                      dataLimit, stackLimit, seq(textWords, _ => Slot.None), seq(kTextWords, _ => Slot.None));
      new;
      InWords(RoundUp4(if dataSize <= 0x1_0000 then 0x1_0000 else dataSize));
      InWords(RoundUp4(stackSize));
      InWords(RoundUp4(kDataSize));
      View().FreshHolds(model);
    }

    /** Whether a segment other than text has this address. */
    method IsMapped(a: Word) returns (yes: bool)
      ensures yes == View().Has(a)
    {
      yes := DATA_BOT <= a < dataTop || stackBot <= a < STACK_TOP || K_DATA_BOT <= a < kDataTop
        || SPECIAL_BOT <= a < SPECIAL_TOP;
    }

    method SetText(n: nat, slot: Slot)
      requires Valid() && n < |textSeg|
      modifies this
      ensures Valid() && model == old(model).(text := old(model).text[n := slot])
    {
      ghost var before := View();
      textSeg := textSeg[n := slot];
      before.TextHolds(model, n, slot, View());
      model := model.(text := model.text[n := slot]);
    }

    /** Reading the z at a: data_seg[..], data_seg_h[..] or data_seg_b[..], and so on. */
    method Peek(a: Word, z: Size) returns (v: Word)
      requires Valid() && Mapped(model, a) && a % Bytes(z) == 0
      ensures v == LoadBytes(model, a, z)
    {
      View().LoadsField(model, a, z);
      var w := GetWord(a);
      v := Field(w, a % 4, z);
    }

    /** Which vector holds address a, and its word there. */
    method GetWord(a: Word) returns (w: Word)
      requires View().Valid() && View().Has(a)
      ensures w == View().WordAt(a)
    {
      if DATA_BOT <= a < dataTop {
        w := dataSeg[(a - DATA_BOT) / 4];
      } else if stackBot <= a < STACK_TOP {
        w := stackSeg[(a - stackBot) / 4];
      } else if K_DATA_BOT <= a < kDataTop {
        w := kDataSeg[(a - K_DATA_BOT) / 4];
      } else {
        w := specialSeg[(a - SPECIAL_BOT) / 4];
      }
    }

    method PutWord(a: Word, w: Word)
      requires View().Valid() && View().Has(a)
      modifies this
      ensures View() == old(View().Put(a, w)) && model == old(model)
    {
      if DATA_BOT <= a < dataTop {
        dataSeg := dataSeg[(a - DATA_BOT) / 4 := w];
      } else if stackBot <= a < STACK_TOP {
        stackSeg := stackSeg[(a - stackBot) / 4 := w];
      } else if K_DATA_BOT <= a < kDataTop {
        kDataSeg := kDataSeg[(a - K_DATA_BOT) / 4 := w];
      } else {
        specialSeg := specialSeg[(a - SPECIAL_BOT) / 4 := w];
      }
    }

    /** Writing the z at a, in place in its vector. */
    method Poke(a: Word, z: Size, v: Word)
      requires Valid() && Mapped(model, a) && a % Bytes(z) == 0
      modifies this
      ensures a + Bytes(z) <= 0x1_0000_0000 && Valid() && model == StoreBytes(old(model), a, z, v)
    {
      ghost var before := View();
      var w := GetWord(a);
      PutWord(a, SetField(w, a % 4, z, v));
      before.PutHolds(model, a, z, v, View());
      model := StoreBytes(model, a, z, v);
    }

    /** Copy the old words to the top of a larger vector of zeros, from the top down. */
    static method CopyToTop(seg: seq<Word>, n: nat) returns (grown: seq<Word>)
      ensures grown == ZeroWords(n) + seg
    {
      var newSeg := new Word[n + |seg|](_ => 0);
      var po, pn := |seg| - 1, n + |seg| - 1;
      while po >= 0
        invariant -1 <= po < |seg| && pn - po == n
        invariant forall k :: pn < k < newSeg.Length ==> newSeg[k] == seg[k - n]
        invariant forall k :: 0 <= k <= pn ==> newSeg[k] == 0
      {
        newSeg[pn] := seg[po];
        po, pn := po - 1, pn - 1;
      }
      grown := newSeg[..];
    }

    /** Grow the stack downwards: copy the old words to the top of a larger vector of zeros. */
    method ExpandStack(addlBytes: int) returns (ok: bool)
      requires Valid()
      modifies this
      ensures ok <==> addlBytes >= 0 && GrownStack(old(stackBot), addlBytes) <= stackLimit
      ensures ok ==> 0 <= STACK_TOP - GrownStack(old(stackBot), addlBytes)
      ensures ok ==> Valid() && model == old(model).(stackBot := STACK_TOP - GrownStack(old(stackBot), addlBytes))
    {
      var delta := RoundUp4(addlBytes);
      var oldSize := STACK_TOP - stackBot;
      var newSize := oldSize + if delta > oldSize then delta else oldSize;
      if addlBytes < 0 || newSize > stackLimit {
        return false;
      }
      ghost var v := View();
      var n := newSize / 4 - oldSize / 4;
      assert newSize - oldSize == 4 * n && stackBot - 4 * n >= DATA_BOT by {
        assert newSize % 4 == 0 && oldSize % 4 == 0;
      }
      stackSeg := CopyToTop(stackSeg, n);
      stackBot := stackBot - (newSize - oldSize);
      v.StackGrowthHolds(model, n, View());
      model := model.(stackBot := stackBot);
      return true;
    }

    /** The words up to address p are clear from word n on, and so are the bytes of p's word below p. */
    static predicate ClearTo(seg: seq<Word>, cleared: seq<Word>, n: nat, p: nat) {
      && |cleared| == |seg| && n <= p / 4 <= |seg|
      && (forall k | 0 <= k < n :: cleared[k] == seg[k])
      && (forall k | n <= k < p / 4 :: cleared[k] == 0)
      && (p / 4 < |seg| ==> LowClear(cleared[p / 4], p % 4))
    }

    static lemma ClearOn(seg: seq<Word>, before: seq<Word>, after: seq<Word>, n: nat, p: nat, w: Word)
      requires ClearTo(seg, before, n, p) && p < 4 * |seg|
      requires after == before[p / 4 := w] && LowClear(w, p % 4 + 1)
      ensures ClearTo(seg, after, n, p + 1)
    {
      hide LowClear;
      if p % 4 == 3 {
        AllClear(w);
        assert (p + 1) / 4 == p / 4 + 1 && (p + 1) % 4 == 0;
        if (p + 1) / 4 < |seg| { NoneClear(after[(p + 1) / 4]); }
      } else {
        assert (p + 1) / 4 == p / 4 && (p + 1) % 4 == p % 4 + 1;
      }
    }

    /** Clear the bytes from `from` up, one at a time. */
    static method ClearBytes(seg: seq<Word>, from: nat, to: nat) returns (cleared: seq<Word>)
      requires from <= to == 4 * |seg| && from % 4 == 0
      ensures cleared == seg[..from / 4] + ZeroWords(to / 4 - from / 4)
    {
      cleared := seg;
      var p := from;
      while p < to
        invariant from <= p <= to && ClearTo(seg, cleared, from / 4, p)
      {
        ghost var before := cleared;
        var w := SetField(cleared[p / 4], p % 4, Byte1, 0);
        ClearedByte(cleared[p / 4], p % 4);
        cleared := cleared[p / 4 := w];
        ClearOn(seg, before, cleared, from / 4, p, w);
        p := p + 1;
      }
    }

    /** Grow the data segment upwards, and zero the new bytes. */
    method ExpandData(addlBytes: int) returns (ok: bool)
      requires Valid()
      modifies this
      ensures ok <==> GrowData(old(model), addlBytes).Some?
      ensures ok ==> Valid() && model == GrowData(old(model), addlBytes).value
    {
      var delta := RoundUp4(addlBytes);
      var oldSize := dataTop - DATA_BOT;
      var newSize := oldSize + delta;
      if addlBytes < 0 || newSize > dataLimit {
        return false;
      }
      ghost var v := View();
      ghost var n := newSize / 4 - |dataSeg|;
      WholeWords(oldSize, addlBytes, |dataSeg|, n);
      dataSeg := dataSeg + seq(newSize / 4 - |dataSeg|, _ => 0);
      dataTop := dataTop + delta;
      dataSeg := ClearBytes(dataSeg, oldSize, newSize);
      assert dataSeg == v.data + ZeroWords(n);
      v.DataGrowthHolds(model, n, View());
      model := model.(dataTop := dataTop);
      return true;
    }
  }
}
