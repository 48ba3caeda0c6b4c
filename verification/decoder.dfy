/** `src/decoder.rs`: the streaming decoder. A cursor over a byte slice with a wrapping
    address refines "decode every four-byte chunk at its own address". */
module Streams {
  import opened Wrappers
  import opened Ints
  import opened Instructions

  const INSN_LEN := 4

  // A slice never spans more than isize::MAX bytes.
  type Bytes = s: seq<bv8> | |s| < 0x8000_0000_0000_0000

  datatype DecodeError = NoError | Unmatched | EndOfInstruction

  // What the decode tree makes of a word at an address, under fixed options.
  type Reader = (bv32, U64) -> Insn

  function ByteAt(data: Bytes, pos: nat): bv32
    requires pos < |data|
  {
    data[pos] as bv32
  }

  // u32::from_le_bytes on four bytes of the slice.
  function WordAt(data: Bytes, pos: nat): bv32
    requires pos + INSN_LEN <= |data|
  {
    Joined(ByteAt(data, pos), ByteAt(data, pos + 1), ByteAt(data, pos + 2), ByteAt(data, pos + 3))
  }

  function Joined(a: bv32, b: bv32, c: bv32, d: bv32): bv32 {
    a | (b << 8) | (c << 16) | (d << 24)
  }

  predicate HasWord(data: Bytes, pos: nat) { pos + INSN_LEN <= |data| }

  // Byte k of the word, counted from its lowest, is byte k of the slice.
  predicate Spells(data: Bytes, pos: nat, word: bv32)
    requires HasWord(data, pos)
  {
    Holds(word, ByteAt(data, pos), ByteAt(data, pos + 1), ByteAt(data, pos + 2), ByteAt(data, pos + 3))
  }

  predicate Holds(word: bv32, a: bv32, b: bv32, c: bv32, d: bv32) {
    word & 0xff == a && (word >> 8) & 0xff == b && (word >> 16) & 0xff == c && word >> 24 == d
  }

  lemma JoinHolds(a: bv32, b: bv32, c: bv32, d: bv32)
    requires a <= 0xff && b <= 0xff && c <= 0xff && d <= 0xff
    ensures Holds(Joined(a, b, c, d), a, b, c, d)
  {
  }

  lemma HeldIsJoined(word: bv32, a: bv32, b: bv32, c: bv32, d: bv32)
    requires Holds(word, a, b, c, d)
    ensures word == Joined(a, b, c, d)
  {
  }

  lemma ByteIsSmall(data: Bytes, pos: nat)
    requires pos < |data|
    ensures ByteAt(data, pos) <= 0xff
  {
  }

  // The word read is the one that the four bytes spell, lowest byte first, and no other.
  lemma WordIsSpelt(data: Bytes, pos: nat, word: bv32)
    requires HasWord(data, pos)
    ensures Spells(data, pos, word) <==> word == WordAt(data, pos)
  {
    var a, b, c, d := ByteAt(data, pos), ByteAt(data, pos + 1), ByteAt(data, pos + 2), ByteAt(data, pos + 3);
    ByteIsSmall(data, pos);
    ByteIsSmall(data, pos + 1);
    ByteIsSmall(data, pos + 2);
    ByteIsSmall(data, pos + 3);
    JoinHolds(a, b, c, d);
    if Spells(data, pos, word) { HeldIsJoined(word, a, b, c, d); }
  }

  datatype Cursor = Cursor(pos: U64, ip: U64, lastError: DecodeError)

  // What decode_into writes at a cursor.
  ghost function Item(data: Bytes, read: Reader, c: Cursor): Insn {
    if HasWord(data, c.pos) then read(WordAt(data, c.pos), c.ip) else NewInvalid(0, 0)
  }

  ghost function Advanced(data: Bytes, read: Reader, c: Cursor): Cursor {
    if HasWord(data, c.pos) then
      Cursor(c.pos + INSN_LEN, Add(c.ip, INSN_LEN), if Item(data, read, c).IsInvalid() then Unmatched else NoError)
    else c.(lastError := EndOfInstruction)
  }

  function Sought(c: Cursor, pos: U64): Cursor {
    c.(pos := pos, ip := if pos >= c.pos then Add(c.ip, pos - c.pos) else Sub(c.ip, c.pos - pos))
  }

  // --- Iterating. ---

  // What `for insn in decoder` yields from a cursor, by Next's own rule.
  ghost function Yielded(data: Bytes, read: Reader, c: Cursor): seq<Insn>
    decreases |data| - c.pos
  {
    if HasWord(data, c.pos) then [Item(data, read, c)] + Yielded(data, read, Advanced(data, read, c)) else []
  }

  ghost function Exhausted(data: Bytes, read: Reader, c: Cursor): Cursor
    decreases |data| - c.pos
  {
    if HasWord(data, c.pos) then Exhausted(data, read, Advanced(data, read, c)) else c
  }

  // How many whole words remain from a position.
  function WordsFrom(data: Bytes, pos: nat): nat {
    if pos <= |data| then (|data| - pos) / INSN_LEN else 0
  }

  // The address p bytes further on.
  function Ahead(ip: U64, p: nat): U64 {
    (ip + p) % 0x1_0000_0000_0000_0000
  }

  // The simple form: chunk k, decoded on its own at its own address.
  ghost function Chunk(data: Bytes, read: Reader, pos: nat, ip: U64, k: nat): Insn
    requires k < WordsFrom(data, pos)
  {
    read(WordAt(data, pos + INSN_LEN * k), Ahead(ip, INSN_LEN * k))
  }

  lemma AheadTwice(ip: U64, p: nat, q: nat)
    requires p <= 4
    ensures Ahead(Add(ip, p), q) == Ahead(ip, p + q)
  {
  }

  lemma ChunkShifts(data: Bytes, read: Reader, c: Cursor, k: nat)
    requires HasWord(data, c.pos)
    ensures var d := Advanced(data, read, c);
            && WordsFrom(data, c.pos) == 1 + WordsFrom(data, d.pos)
            && (0 < k < WordsFrom(data, c.pos) ==>
                  Chunk(data, read, d.pos, d.ip, k - 1) == Chunk(data, read, c.pos, c.ip, k))
  {
    if 0 < k < WordsFrom(data, c.pos) { AheadTwice(c.ip, INSN_LEN, INSN_LEN * (k - 1)); }
  }

  lemma {:induction false} ChunksAreYielded(data: Bytes, read: Reader, c: Cursor)
    ensures |Yielded(data, read, c)| == WordsFrom(data, c.pos)
    ensures forall k | 0 <= k < WordsFrom(data, c.pos) :: Yielded(data, read, c)[k] == Chunk(data, read, c.pos, c.ip, k)
    decreases |data| - c.pos
  {
    if HasWord(data, c.pos) {
      var d := Advanced(data, read, c);
      ChunksAreYielded(data, read, d);
      var rest := Yielded(data, read, d);
      assert Yielded(data, read, c) == [Item(data, read, c)] + rest;
      ChunkShifts(data, read, c, 0);
      forall k | 0 < k < WordsFrom(data, c.pos)
        ensures ([Item(data, read, c)] + rest)[k] == Chunk(data, read, c.pos, c.ip, k)
      {
        ChunkShifts(data, read, c, k);
      }
    }
  }

  // The cursor after k whole words.
  predicate IsAfter(data: Bytes, c: Cursor, k: nat, d: Cursor) {
    k <= WordsFrom(data, c.pos) && d.pos == c.pos + INSN_LEN * k && d.ip == Ahead(c.ip, INSN_LEN * k)
  }

  lemma ChunkIsSpelt(data: Bytes, read: Reader, pos: nat, ip: U64, k: nat, word: bv32)
    requires k < WordsFrom(data, pos) && Spells(data, pos + INSN_LEN * k, word)
    ensures Chunk(data, read, pos, ip, k) == read(word, Ahead(ip, INSN_LEN * k))
  {
    WordIsSpelt(data, pos + INSN_LEN * k, word);
  }

  // Item k is the decode of the word its four bytes spell, at the address they have.
  ghost predicate AreSpelt(items: seq<Insn>, data: Bytes, read: Reader, c: Cursor)
    requires |items| <= WordsFrom(data, c.pos)
  {
    forall k: nat, word: bv32 | k < |items| && Spells(data, c.pos + INSN_LEN * k, word) ::
      items[k] == read(word, Ahead(c.ip, INSN_LEN * k))
  }

  lemma ItemsAreSpelt(items: seq<Insn>, data: Bytes, read: Reader, c: Cursor)
    requires |items| <= WordsFrom(data, c.pos)
    requires forall k | 0 <= k < |items| :: items[k] == Chunk(data, read, c.pos, c.ip, k)
    ensures AreSpelt(items, data, read, c)
  {
    forall k: nat, word: bv32 | k < |items| && Spells(data, c.pos + INSN_LEN * k, word)
      ensures items[k] == read(word, Ahead(c.ip, INSN_LEN * k))
    {
      ChunkIsSpelt(data, read, c.pos, c.ip, k, word);
    }
  }

  // The stream yields as many items as whole words remain, each spelt by its own bytes,
  // wherever the cursor stands.
  lemma StreamIsMap(data: Bytes, read: Reader, c: Cursor)
    ensures |Yielded(data, read, c)| == WordsFrom(data, c.pos)
    ensures AreSpelt(Yielded(data, read, c), data, read, c)
  {
    ChunksAreYielded(data, read, c);
    ItemsAreSpelt(Yielded(data, read, c), data, read, c);
  }

  // One decode: the instruction the bytes under the cursor spell, at its address.
  lemma ItemIsSpelt(data: Bytes, read: Reader, c: Cursor, word: bv32)
    requires HasWord(data, c.pos) && Spells(data, c.pos, word)
    ensures Item(data, read, c) == read(word, c.ip)
  {
    WordIsSpelt(data, c.pos, word);
  }

  // The bytes 1f 20 03 d5 are a NOP.
  lemma NopIsSpelt(data: Bytes, pos: nat)
    requires HasWord(data, pos) && data[pos..pos + INSN_LEN] == [0x1f, 0x20, 0x03, 0xd5]
    ensures WordAt(data, pos) == 0xd503_201f
  {
    var s := data[pos..pos + INSN_LEN];
    assert data[pos] == s[0] && data[pos + 1] == s[1] && data[pos + 2] == s[2] && data[pos + 3] == s[3];
    WordIsSpelt(data, pos, 0xd503_201f);
  }

  lemma NextChunk(data: Bytes, read: Reader, c: Cursor, k: nat, d: Cursor)
    requires IsAfter(data, c, k, d)
    ensures HasWord(data, d.pos) <==> k < WordsFrom(data, c.pos)
    ensures HasWord(data, d.pos) ==>
              && Item(data, read, d) == Chunk(data, read, c.pos, c.ip, k)
              && IsAfter(data, c, k + 1, Advanced(data, read, d))
  {
  }

  // What Next returns at a cursor, and the cursor it leaves.
  ghost function Yield(data: Bytes, read: Reader, c: Cursor): Option<Insn> {
    if HasWord(data, c.pos) then Some(Item(data, read, c)) else None
  }

  // Some first items of the stream from c are taken, item was returned next, and the cursor is at d.
  ghost predicate Collecting(items: seq<Insn>, item: Option<Insn>, data: Bytes, read: Reader, c: Cursor, d: Cursor) {
    && |items| <= WordsFrom(data, c.pos)
    && (forall k | 0 <= k < |items| :: items[k] == Chunk(data, read, c.pos, c.ip, k))
    && (item.None? <==> |items| == WordsFrom(data, c.pos))
    && (item.Some? ==> item.value == Chunk(data, read, c.pos, c.ip, |items|))
    && IsAfter(data, c, if item.Some? then |items| + 1 else |items|, d)
  }

  lemma OneMoreItem(items: seq<Insn>, item: Insn, data: Bytes, read: Reader, c: Cursor, d: Cursor)
    requires Collecting(items, Some(item), data, read, c, d)
    ensures Collecting(items + [item], Yield(data, read, d), data, read, c,
                       if HasWord(data, d.pos) then Advanced(data, read, d) else d)
  {
    NextChunk(data, read, c, |items| + 1, d);
  }

  lemma CollectedAreSpelt(items: seq<Insn>, data: Bytes, read: Reader, c: Cursor, d: Cursor)
    requires Collecting(items, None, data, read, c, d)
    ensures |items| == WordsFrom(data, c.pos) && AreSpelt(items, data, read, c) && IsAfter(data, c, |items|, d)
  {
    ItemsAreSpelt(items, data, read, c);
  }

  // Iteration stops with the cursor after the last whole word.
  lemma {:induction false} StreamStops(data: Bytes, read: Reader, c: Cursor)
    ensures var n, e := WordsFrom(data, c.pos), Exhausted(data, read, c);
            e.pos == c.pos + INSN_LEN * n && e.ip == Ahead(c.ip, INSN_LEN * n) && !HasWord(data, e.pos)
    decreases |data| - c.pos
  {
    if HasWord(data, c.pos) {
      StreamStops(data, read, Advanced(data, read, c));
      AheadTwice(c.ip, INSN_LEN, INSN_LEN * (WordsFrom(data, c.pos) - 1));
    }
  }

  // --- Any mix of decoding and seeking. ---

  datatype Move = DecodeNext | SeekTo(pos: U64)

  ghost function Step(data: Bytes, read: Reader, c: Cursor, m: Move): Cursor {
    match m
    case DecodeNext => Advanced(data, read, c)
    case SeekTo(pos) => Sought(c, pos)
  }

  ghost function Wander(data: Bytes, read: Reader, c: Cursor, moves: seq<Move>): Cursor
    decreases |moves|
  {
    if moves == [] then c else Wander(data, read, Step(data, read, c, moves[0]), moves[1..])
  }

  // The address of data[0].
  function Origin(c: Cursor): U64 { Sub(c.ip, c.pos) }

  // Seeking puts the cursor at the position, and the address where that byte is.
  lemma SeekArrives(c: Cursor, pos: U64)
    ensures Sought(c, pos) == Cursor(pos, Ahead(Origin(c), pos), c.lastError)
  {
  }

  lemma StepKeepsOrigin(data: Bytes, read: Reader, c: Cursor, m: Move)
    ensures Origin(Step(data, read, c, m)) == Origin(c)
  {
  }

  // However the cursor wanders, past the end and back included, the address stays
  // that of the byte under it.
  lemma {:induction false} OriginIsKept(data: Bytes, read: Reader, c: Cursor, moves: seq<Move>)
    ensures Origin(Wander(data, read, c, moves)) == Origin(c)
    decreases |moves|
  {
    if moves != [] {
      StepKeepsOrigin(data, read, c, moves[0]);
      OriginIsKept(data, read, Step(data, read, c, moves[0]), moves[1..]);
    }
  }

  // So what comes out next depends on the position alone, not on the way there.
  lemma PathIndependence(data: Bytes, read: Reader, c: Cursor, m1: seq<Move>, m2: seq<Move>)
    ensures var a, b := Wander(data, read, c, m1), Wander(data, read, c, m2);
            a.pos == b.pos ==> a.ip == b.ip && Yielded(data, read, a) == Yielded(data, read, b)
  {
    OriginIsKept(data, read, c, m1);
    OriginIsKept(data, read, c, m2);
    var a, b := Wander(data, read, c, m1), Wander(data, read, c, m2);
    if a.pos == b.pos {
      ChunksAreYielded(data, read, a);
      ChunksAreYielded(data, read, b);
    }
  }

  // last_error tells the three outcomes of a decode apart.
  lemma LastErrorTells(data: Bytes, read: Reader, c: Cursor)
    ensures var e := Advanced(data, read, c).lastError;
            && (e == NoError <==> !Item(data, read, c).IsInvalid())
            && (e == EndOfInstruction <==> !HasWord(data, c.pos))
            && (e == EndOfInstruction <==> Advanced(data, read, c).pos == c.pos)
  {
  }

  // --- Streams of one buffer and of its parts. ---

  lemma WordOfPrefix(a: Bytes, b: Bytes, ab: Bytes, p: nat)
    requires ab == a + b && HasWord(a, p)
    ensures HasWord(ab, p) && WordAt(ab, p) == WordAt(a, p)
  {
  }

  lemma WordOfSuffix(a: Bytes, b: Bytes, ab: Bytes, p: nat)
    requires ab == a + b && HasWord(b, p)
    ensures HasWord(ab, |a| + p) && WordAt(ab, |a| + p) == WordAt(b, p)
  {
  }

  lemma AheadAhead(ip: U64, p: nat, q: nat)
    ensures Ahead(Ahead(ip, p), q) == Ahead(ip, p + q)
  {
  }

  lemma ChunkOfPart(a: Bytes, b: Bytes, ab: Bytes, read: Reader, ip: U64, k: nat)
    requires ab == a + b && |a| % INSN_LEN == 0 && k < WordsFrom(ab, 0)
    ensures var m := |a| / INSN_LEN;
            Chunk(ab, read, 0, ip, k) ==
            if k < m then Chunk(a, read, 0, ip, k) else Chunk(b, read, 0, Ahead(ip, |a|), k - m)
  {
    var m := |a| / INSN_LEN;
    if k < m {
      WordOfPrefix(a, b, ab, INSN_LEN * k);
    } else {
      WordOfSuffix(a, b, ab, INSN_LEN * (k - m));
      AheadAhead(ip, |a|, INSN_LEN * (k - m));
    }
  }

  // A buffer of whole words may be fed in parts: the second part, decoded at the
  // address where the first one ends, yields the rest.
  lemma StreamSplits(a: Bytes, b: Bytes, ab: Bytes, read: Reader, ip: U64)
    requires ab == a + b && |a| % INSN_LEN == 0
    ensures Yielded(ab, read, Cursor(0, ip, NoError)) ==
            Yielded(a, read, Cursor(0, ip, NoError)) + Yielded(b, read, Cursor(0, Ahead(ip, |a|), NoError))
  {
    var whole, left := Yielded(ab, read, Cursor(0, ip, NoError)), Yielded(a, read, Cursor(0, ip, NoError));
    var right := Yielded(b, read, Cursor(0, Ahead(ip, |a|), NoError));
    ChunksAreYielded(ab, read, Cursor(0, ip, NoError));
    ChunksAreYielded(a, read, Cursor(0, ip, NoError));
    ChunksAreYielded(b, read, Cursor(0, Ahead(ip, |a|), NoError));
    var m := |a| / INSN_LEN;
    assert |whole| == |left| + |right|;
    forall k | 0 <= k < |whole|
      ensures whole[k] == (left + right)[k]
    {
      ChunkOfPart(a, b, ab, read, ip, k);
      assert whole[k] == Chunk(ab, read, 0, ip, k);
      assert if k < m then left[k] == Chunk(a, read, 0, ip, k)
             else right[k - m] == Chunk(b, read, 0, Ahead(ip, |a|), k - m);
    }
  }
}

module StreamingDecoder {
  import opened Wrappers
  import opened Ints
  import opened Features
  import opened Instructions
  import opened EditHistory
  import opened BranchSpec
  import opened Streams
  import DecodeTree

  // The options, and what stands for the parts of the tree outside this model.
  datatype Setup = Setup(features: FeatureSet, table: SysTable, others: DecodeTree.Others) {
    ghost predicate Proper() { DecodeTree.Proper(others) }

    ghost function Reads(): Reader {
      (word: bv32, ip: U64) => DecodeTree.DecodeWord(word, ip, features, table, others)
    }
  }

  class Decoder {
    const data: Bytes
    const setup: Setup
    var pos: U64
    var ip: U64
    var lastError: DecodeError

    function State(): Cursor
      reads this
    {
      Cursor(pos, ip, lastError)
    }

    constructor (data: Bytes, ip: U64, setup: Setup)
      ensures this.data == data && this.setup == setup
      ensures State() == Cursor(0, ip, NoError)
    {
      this.data, this.setup := data, setup;
      this.pos, this.ip, lastError := 0, ip, NoError;
    }

    method DecodeInto(out: Instruction)
      requires setup.Proper() && out.operands.Length == MAX_OPERANDS
      modifies this, out, out.operands
      ensures out.Valid()
      ensures out.View() == Item(data, setup.Reads(), old(State()))
      ensures State() == Advanced(data, setup.Reads(), old(State()))
    {
      if |data| < pos + INSN_LEN {
        out.Reset(0, 0);
        lastError := EndOfInstruction;
        return;
      }
      var word := WordAt(data, pos);
      DecodeTree.DecodeInto(word, ip, setup.features, setup.table, setup.others, out);
      lastError := if out.code.Invalid? then Unmatched else NoError;
      pos := pos + INSN_LEN;
      ip := Add(ip, INSN_LEN);
    }

    method Decode() returns (out: Instruction)
      requires setup.Proper()
      modifies this
      ensures fresh(out) && fresh(out.operands) && out.Valid()
      ensures out.View() == Item(data, setup.Reads(), old(State()))
      ensures State() == Advanced(data, setup.Reads(), old(State()))
    {
      out := new Instruction.New(0, 0);
      DecodeInto(out);
    }

    method CanDecode() returns (more: bool)
      ensures more == HasWord(data, pos)
    {
      more := pos <= |data| && |data[pos..]| >= INSN_LEN;
    }

    method SetPosition(pos: U64)
      modifies this
      ensures State() == Sought(old(State()), pos)
    {
      if pos >= this.pos {
        ip := Add(ip, pos - this.pos);
      } else {
        ip := Sub(ip, this.pos - pos);
      }
      this.pos := pos;
    }

    method SetIp(ip: U64)
      modifies this
      ensures State() == old(State()).(ip := ip)
    {
      this.ip := ip;
    }

    // Iterator::next, of both iterators: a copy of the instruction.
    method Next() returns (item: Option<Insn>)
      requires setup.Proper()
      modifies this
      ensures item == Yield(data, setup.Reads(), old(State()))
      ensures State() == if item.Some? then Advanced(data, setup.Reads(), old(State())) else old(State())
    {
      var more := CanDecode();
      if more {
        var out := Decode();
        var v := out.Copy();
        return Some(v);
      } else {
        return None;
      }
    }
  }

  // Consuming the iterator to its end.
  method Collect(dec: Decoder) returns (items: seq<Insn>)
    requires dec.setup.Proper()
    modifies dec
    ensures |items| == old(WordsFrom(dec.data, dec.pos))
    ensures AreSpelt(items, dec.data, dec.setup.Reads(), old(dec.State()))
    ensures IsAfter(dec.data, old(dec.State()), |items|, dec.State())
  {
    ghost var read, c := dec.setup.Reads(), dec.State();
    items := [];
    NextChunk(dec.data, read, c, 0, c);
    var item := dec.Next();
    while item.Some?
      invariant Collecting(items, item, dec.data, read, c, dec.State())
      decreases WordsFrom(dec.data, c.pos) - |items|
    {
      OneMoreItem(items, item.value, dec.data, read, c, dec.State());
      items := items + [item.value];
      item := dec.Next();
    }
    CollectedAreSpelt(items, dec.data, read, c, dec.State());
  }

  // --- The same bytes at another address. ---

  // Every item relocated by the same distance.
  lemma StreamRelocates(data: Bytes, s: Setup, pos: U64, p: U64, q: U64, k: nat)
    requires k < WordsFrom(data, pos) && DecodeTree.Modelled(WordAt(data, pos + INSN_LEN * k))
    ensures var a := Yielded(data, s.Reads(), Cursor(pos, p, NoError));
            var b := Yielded(data, s.Reads(), Cursor(pos, q, NoError));
            && k < |a| == |b|
            && Moved(a[k], Ahead(q, INSN_LEN * k)) == b[k].(modified := a[k].HasLabel())
  {
    ChunksAreYielded(data, s.Reads(), Cursor(pos, p, NoError));
    ChunksAreYielded(data, s.Reads(), Cursor(pos, q, NoError));
    var word := WordAt(data, pos + INSN_LEN * k);
    DecodeTree.TreeCommutesWithRelocation(word, s.features, s.table, s.others,
                                          Ahead(p, INSN_LEN * k), Ahead(q, INSN_LEN * k));
    assert Yielded(data, s.Reads(), Cursor(pos, p, NoError))[k] == Chunk(data, s.Reads(), pos, p, k);
    assert Yielded(data, s.Reads(), Cursor(pos, q, NoError))[k] == Chunk(data, s.Reads(), pos, q, k);
  }
}
