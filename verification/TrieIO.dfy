/** Writing a trie to a memory block and reading it back (src/darray.c, src/tail.c, src/trie.c). */
module TrieIO {
  import opened Basics
  import opened DoubleArray
  import opened Tails
  import opened TrieTheory
  import opened TailReach
  import opened TrieMap
  import opened Streams

  const TAIL_SIGNATURE: U32 := 0xDFFCDFFC

  predicate CellFits(c: Cell) { IsI32(c.base) && IsI32(c.check) }

  /** All words are 32-bit words and all suffix characters are bytes, as the C types have it. */
  ghost predicate Fits(cs: seq<Cell>, ts: seq<Block>, ff: int) {
    && (forall i {:trigger cs[i]} :: 0 <= i < |cs| ==> CellFits(cs[i]))
    && (forall i {:trigger ts[i]} :: 0 <= i < |ts| ==> BlockFits(ts[i]))
    && IsI32(ff) && |ts| < 0x8000_0000
  }

  predicate BlockFits(b: Block) {
    && IsI32(b.nextFree) && IsI32(b.data)
    && (b.suffix.Some? ==> AllBytes(b.suffix.value))
  }

  predicate AllBytes(s: seq<int>) { forall i :: 0 <= i < |s| ==> 0 < s[i] < 0x100 }

  function AsBytes(s: seq<int>): (r: seq<Byte>)
    requires AllBytes(s)
    ensures |r| == |s| && forall i :: 0 <= i < |s| ==> r[i] == s[i]
  {
    seq(|s|, i requires 0 <= i < |s| => s[i])
  }

  // ---------------------------------------------------------------- the image on the stream

  function CellImage(c: Cell): seq<Byte> {
    Bytes32(ToU32(c.base)) + Bytes32(ToU32(c.check))
  }

  function CellsImage(cs: seq<Cell>): seq<Byte> {
    if cs == [] then [] else CellImage(cs[0]) + CellsImage(cs[1..])
  }

  /** The part of a suffix that tail_fmwrite puts out: its length goes through a 16-bit integer. */
  function Stored(s: seq<int>): seq<int> {
    var length := ToI16(ToU16(|s|));
    if length > 0 then s[..length] else []
  }

  function BlockImage(b: Block): seq<Byte>
    requires BlockFits(b)
  {
    Bytes32(ToU32(b.nextFree)) + Bytes32(ToU32(b.data)) + Bytes16(ToU16(|SuffixOf(b)|)) + AsBytes(Stored(SuffixOf(b)))
  }

  function BlocksImage(ts: seq<Block>): seq<Byte>
    requires forall i {:trigger ts[i]} :: 0 <= i < |ts| ==> BlockFits(ts[i])
  {
    if ts == [] then [] else BlockImage(ts[0]) + BlocksImage(ts[1..])
  }

  function TailImage(ts: seq<Block>, ff: int): seq<Byte>
    requires forall i {:trigger ts[i]} :: 0 <= i < |ts| ==> BlockFits(ts[i])
  {
    Bytes32(TAIL_SIGNATURE) + Bytes32(ToU32(ff)) + Bytes32(ToU32(|ts|)) + BlocksImage(ts)
  }

  // ---------------------------------------------------------------- where things are in the image

  /** Cells take eight bytes each, BASE before CHECK. */
  lemma {:induction false} CellsLayout(cs: seq<Cell>, i: nat)
    requires i < |cs|
    ensures |CellsImage(cs)| == 8 * |cs|
    ensures CellsImage(cs)[8 * i..8 * i + 4] == Bytes32(ToU32(cs[i].base))
    ensures CellsImage(cs)[8 * i + 4..8 * i + 8] == Bytes32(ToU32(cs[i].check))
    decreases |cs|
  {
    var a, r := CellImage(cs[0]), CellsImage(cs[1..]);
    if |cs| > 1 {
      CellsLayout(cs[1..], if i == 0 then 0 else i - 1);
    }
    assert CellsImage(cs) == a + r && |a| == 8;
    if i > 0 {
      assert (a + r)[8 * i..8 * i + 4] == r[8 * (i - 1)..8 * (i - 1) + 4];
      assert (a + r)[8 * i + 4..8 * i + 8] == r[8 * (i - 1) + 4..8 * (i - 1) + 8];
    }
  }

  lemma Signatures()
    ensures Bytes32(ToU32(SIGNATURE)) == [0xDA, 0xFC, 0xDA, 0xFC]
    ensures Bytes32(TAIL_SIGNATURE) == [0xDF, 0xFC, 0xDF, 0xFC]
  {
    BigEndian32(ToU32(SIGNATURE));
    BigEndian32(TAIL_SIGNATURE);
  }

  lemma Slices(x: seq<Byte>, y: seq<Byte>, z: seq<Byte>, w: seq<Byte>, b: seq<Byte>)
    requires b == x + y + z + w && |x| == |y| == 4
    ensures |b| == 8 + |z| + |w| && b[..4] == x && b[4..8] == y && b[8..8 + |z|] == z && b[8 + |z|..] == w
  {
  }

  /** The first free block, the number of blocks and then the blocks stand behind a signature. */
  lemma TailLayout(ts: seq<Block>, ff: int, b: seq<Byte>)
    requires (forall i {:trigger ts[i]} :: 0 <= i < |ts| ==> BlockFits(ts[i])) && b == TailImage(ts, ff)
    ensures |b| >= 12 && b[..4] == [0xDF, 0xFC, 0xDF, 0xFC] && b[4..8] == Bytes32(ToU32(ff))
    ensures b[8..12] == Bytes32(ToU32(|ts|)) && b[12..] == BlocksImage(ts)
  {
    Signatures();
    Slices(Bytes32(TAIL_SIGNATURE), Bytes32(ToU32(ff)), Bytes32(ToU32(|ts|)), BlocksImage(ts), b);
  }

  /** A block is its link, its datum, the length of its suffix and then the suffix. */
  lemma BlockLayout(b: Block, m: seq<Byte>)
    requires BlockFits(b) && m == BlockImage(b)
    ensures |m| >= 10 && m[..4] == Bytes32(ToU32(b.nextFree)) && m[4..8] == Bytes32(ToU32(b.data))
    ensures m[8..10] == Bytes16(ToU16(|SuffixOf(b)|)) && m[10..] == Stored(SuffixOf(b))
  {
    var w := AsBytes(Stored(SuffixOf(b)));
    Slices(Bytes32(ToU32(b.nextFree)), Bytes32(ToU32(b.data)), Bytes16(ToU16(|SuffixOf(b)|)), w, m);
    assert w == Stored(SuffixOf(b));
  }

  /** The double array begins with its signature and the number of its cells, and the tails are
      behind its last cell. */
  lemma ImageLayout(cs: seq<Cell>, ts: seq<Block>, ff: int, b: seq<Byte>)
    requires cs != [] && cs[0] == Cell(SIGNATURE, |cs|)
    requires forall i {:trigger ts[i]} :: 0 <= i < |ts| ==> BlockFits(ts[i])
    requires b == CellsImage(cs) + TailImage(ts, ff)
    ensures 8 <= 8 * |cs| <= |b|
    ensures b[..4] == [0xDA, 0xFC, 0xDA, 0xFC] && b[4..8] == Bytes32(ToU32(|cs|))
    ensures b[8 * |cs|..] == TailImage(ts, ff)
  {
    Signatures();
    CellsLayout(cs, 0);
    FrontOf(CellsImage(cs), TailImage(ts, ff), b);
  }

  lemma FrontOf(x: seq<Byte>, y: seq<Byte>, b: seq<Byte>)
    requires b == x + y && |x| >= 8
    ensures b[..4] == x[0..4] && b[4..8] == x[4..8] && b[|x|..] == y
  {
  }

  // ---------------------------------------------------------------- writing

  method WriteCells(d: DArray, stream: Stream)
    requires stream.Valid()
    modifies stream
    ensures stream.Valid() && stream.Written() == old(stream.Written()) + CellsImage(d.cells)
  {
    ghost var w0 := stream.Written();
    for i := 0 to |d.cells|
      invariant stream.Valid() && stream.Written() + CellsImage(d.cells[i..]) == w0 + CellsImage(d.cells)
    {
      ghost var w := stream.Written();
      stream.WriteU32(ToU32(d.cells[i].base));
      stream.WriteU32(ToU32(d.cells[i].check));
      assert d.cells[i..][1..] == d.cells[i + 1..];
      ThreeParts(w, Bytes32(ToU32(d.cells[i].base)), Bytes32(ToU32(d.cells[i].check)));
      FirstCell(d.cells[i..], []);
      ThreeParts(w, CellImage(d.cells[i]), CellsImage(d.cells[i + 1..]));
    }
  }

  method WriteTail(t: Tail, stream: Stream)
    requires stream.Valid() && forall i {:trigger t.tails[i]} :: 0 <= i < |t.tails| ==> BlockFits(t.tails[i])
    modifies stream
    ensures stream.Valid() && stream.Written() == old(stream.Written()) + TailImage(t.tails, t.firstFree)
  {
    ghost var w := stream.Written();
    stream.WriteU32(TAIL_SIGNATURE);
    stream.WriteU32(ToU32(t.firstFree));
    stream.WriteU32(ToU32(|t.tails|));
    WriteBlocks(t.tails, stream);
    FourParts(w, Bytes32(TAIL_SIGNATURE), Bytes32(ToU32(t.firstFree)), Bytes32(ToU32(|t.tails|)), BlocksImage(t.tails));
  }

  method WriteBlocks(ts: seq<Block>, stream: Stream)
    requires stream.Valid() && forall i {:trigger ts[i]} :: 0 <= i < |ts| ==> BlockFits(ts[i])
    modifies stream
    ensures stream.Valid() && stream.Written() == old(stream.Written()) + BlocksImage(ts)
  {
    ghost var w0 := stream.Written();
    for i := 0 to |ts|
      invariant stream.Valid() && stream.Written() + BlocksImage(ts[i..]) == w0 + BlocksImage(ts)
    {
      BlocksFrom(stream.Written(), ts, i);
      WriteBlock(ts[i], stream);
    }
  }

  lemma BlocksFrom(w: seq<Byte>, ts: seq<Block>, i: nat)
    requires i < |ts| && forall i {:trigger ts[i]} :: 0 <= i < |ts| ==> BlockFits(ts[i])
    ensures w + BlocksImage(ts[i..]) == w + BlockImage(ts[i]) + BlocksImage(ts[i + 1..])
  {
    assert ts[i..][0] == ts[i] && ts[i..][1..] == ts[i + 1..];
  }

  method WriteBlock(b: Block, stream: Stream)
    requires stream.Valid() && BlockFits(b)
    modifies stream
    ensures stream.Valid() && stream.Written() == old(stream.Written()) + BlockImage(b)
  {
    ghost var w := stream.Written();
    stream.WriteU32(ToU32(b.nextFree));
    stream.WriteU32(ToU32(b.data));
    var length := 0;
    if b.suffix.Some? {
      length := ToI16(ToU16(|b.suffix.value|));
    }
    stream.WriteU16(ToU16(length));
    if length > 0 {
      stream.Write(AsBytes(b.suffix.value[..length]));
    }
    assert ToU16(length) == ToU16(|SuffixOf(b)|);
  }

  /** trie_mwrite with no memory given: the bytes up to the cursor. */
  method Mwrite(t: Trie) returns (mem: seq<Byte>)
    requires t.Valid() && Storable(t.Now())
    modifies t`dirty
    ensures Fits(t.da.cells, t.tail.tails, t.tail.firstFree) && mem == Image(t.Now())
    ensures t.Valid() && !t.dirty && t.Now() == old(t.Now())
  {
    StorableFits(t.Now());
    mem := WriteParts(t.da, t.tail);
    t.dirty := false;
  }

  method WriteParts(d: DArray, t: Tail) returns (mem: seq<Byte>)
    requires forall i {:trigger t.tails[i]} :: 0 <= i < |t.tails| ==> BlockFits(t.tails[i])
    ensures mem == CellsImage(d.cells) + TailImage(t.tails, t.firstFree)
  {
    var stream := new Stream(seq(4096, _ => 0));
    NothingBefore(CellsImage(d.cells));
    WriteBoth(d, t, stream);
    mem := stream.mem[..stream.pos];
  }

  method WriteBoth(d: DArray, t: Tail, stream: Stream)
    requires stream.Valid() && forall i {:trigger t.tails[i]} :: 0 <= i < |t.tails| ==> BlockFits(t.tails[i])
    modifies stream
    ensures stream.Valid()
    ensures stream.Written() == old(stream.Written()) + CellsImage(d.cells) + TailImage(t.tails, t.firstFree)
  {
    WriteCells(d, stream);
    WriteTail(t, stream);
  }

  lemma NothingBefore(s: seq<Byte>)
    ensures [] + s == s
  {
  }

  // ---------------------------------------------------------------- reading

  /** What becomes of reading: a value and the bytes behind it, a refusal, or a write outside
      the reader's own buffer. */
  datatype Outcome<+T> = Got(value: T, rest: seq<Byte>) | Failed | OutsideBuffer

  function Prepend<T>(xs: seq<T>, o: Outcome<seq<T>>): Outcome<seq<T>> {
    if o.Got? then Got(xs + o.value, o.rest) else o
  }

  function ParseI32(b: seq<Byte>): Outcome<int> {
    if |b| < 4 then Failed else Got(ToI32(Word32(b[..4])), b[4..])
  }

  function ParseCell(b: seq<Byte>): Outcome<Cell> {
    var base := ParseI32(b);
    if !base.Got? then Failed else
    var check := ParseI32(base.rest);
    if !check.Got? then Failed else Got(Cell(base.value, check.value), check.rest)
  }

  function ParseCellList(b: seq<Byte>, n: nat): Outcome<seq<Cell>> {
    if n == 0 then Got([], b) else
    var c := ParseCell(b);
    if !c.Got? then Failed else Prepend([c.value], ParseCellList(c.rest, n - 1))
  }

  /** The double array behind its signature; the count comes from the stream and with none
      announced not even cell 0 has room. */
  function ParseCells(b: seq<Byte>): Outcome<seq<Cell>> {
    CellsBehind(ParseCell(b))
  }

  function CellsBehind(head: Outcome<Cell>): Outcome<seq<Cell>> {
    if !head.Got? || head.value.base != SIGNATURE || head.value.check < 0 then Failed
    else if head.value.check == 0 then OutsideBuffer
    else Prepend([Cell(SIGNATURE, head.value.check)], ParseCellList(head.rest, head.value.check - 1))
  }

  function ParseBlock(b: seq<Byte>): Outcome<Block> {
    var nextFree := ParseI32(b);
    if !nextFree.Got? then Failed else
    var data := ParseI32(nextFree.rest);
    if !data.Got? || |data.rest| < 2 then Failed else
    var length, body := ToI16(Word16(data.rest[..2])), data.rest[2..];
    if length < 0 then OutsideBuffer
    else if length > |body| then Failed
    else Got(Block(nextFree.value, data.value, Some(body[..length])), body[length..])
  }

  function ParseBlocks(b: seq<Byte>, n: nat): Outcome<seq<Block>> {
    if n == 0 then Got([], b) else
    var c := ParseBlock(b);
    if c.Got? then Prepend([c.value], ParseBlocks(c.rest, n - 1)) else if c.Failed? then Failed else OutsideBuffer
  }

  function ParseTail(b: seq<Byte>): Outcome<(int, seq<Block>)> {
    if |b| < 4 || Word32(b[..4]) != TAIL_SIGNATURE then Failed else
    var ff := ParseI32(b[4..]);
    if !ff.Got? then Failed else
    var num := ParseI32(ff.rest);
    if !num.Got? || num.value < 0 then Failed else
    var ts := ParseBlocks(num.rest, num.value);
    if ts.Got? then Got((ff.value, ts.value), ts.rest) else if ts.Failed? then Failed else OutsideBuffer
  }

  method ReadI32(stream: Stream) returns (ok: bool, v: int)
    requires stream.Valid()
    modifies stream`pos
    ensures stream.Valid()
    ensures ParseI32(old(stream.Unread())) == if ok then Got(v, stream.Unread()) else Failed
  {
    var u;
    ok, u := stream.ReadU32();
    v := ToI32(u);
  }

  method ReadCell(stream: Stream) returns (ok: bool, c: Cell)
    requires stream.Valid()
    modifies stream`pos
    ensures stream.Valid()
    ensures ParseCell(old(stream.Unread())) == if ok then Got(c, stream.Unread()) else Failed
  {
    var base, check := 0, 0;
    ok, base := ReadI32(stream);
    if ok {
      ok, check := ReadI32(stream);
    }
    c := Cell(base, check);
  }

  /** darray_fmread. A refusal puts the cursor back to where it was. */
  method ReadCells(stream: Stream) returns (o: Outcome<seq<Cell>>)
    requires stream.Valid()
    modifies stream`pos
    ensures stream.Valid() && o == ParseCells(old(stream.Unread()))
    ensures o.Got? ==> stream.Unread() == o.rest
    ensures o.Failed? ==> stream.pos == old(stream.pos)
  {
    var savePos := stream.pos;
    var ok, head := ReadCell(stream);
    if !ok || head.base != SIGNATURE || head.check < 0 {
      stream.pos := savePos;
      return Failed;
    }
    if head.check == 0 {
      return OutsideBuffer;
    }
    o := ReadCellList(stream, head.check - 1);
    if o.Failed? {
      stream.pos := savePos;
      return;
    }
    o := Prepend([Cell(SIGNATURE, head.check)], o);
  }

  method ReadCellList(stream: Stream, n: nat) returns (o: Outcome<seq<Cell>>)
    requires stream.Valid()
    modifies stream`pos
    ensures stream.Valid() && o == ParseCellList(old(stream.Unread()), n)
    ensures o.Got? ==> stream.Unread() == o.rest
    ensures !o.OutsideBuffer?
  {
    var cs := [];
    ghost var whole := ParseCellList(old(stream.Unread()), n);
    PrependNothing(whole);
    for i := 0 to n
      invariant stream.Valid()
      invariant whole == Prepend(cs, ParseCellList(stream.Unread(), n - i))
    {
      var ok, c := ReadCell(stream);
      if !ok {
        return Failed;
      }
      PrependTwice(cs, c, ParseCellList(stream.Unread(), n - i - 1));
      cs := cs + [c];
    }
    assert cs + [] == cs;
    return Got(cs, stream.mem[stream.pos..]);
  }

  lemma PrependNothing<T>(o: Outcome<seq<T>>)
    ensures Prepend([], o) == o
  {
    if o.Got? {
      assert [] + o.value == o.value;
    }
  }

  lemma PrependTwice<T>(xs: seq<T>, x: T, o: Outcome<seq<T>>)
    ensures Prepend(xs, Prepend([x], o)) == Prepend(xs + [x], o)
  {
    if o.Got? {
      assert xs + ([x] + o.value) == xs + [x] + o.value;
    }
  }

  method ReadBlock(stream: Stream) returns (o: Outcome<Block>)
    requires stream.Valid()
    modifies stream`pos
    ensures stream.Valid() && o == ParseBlock(old(stream.Unread()))
    ensures o.Got? ==> stream.Unread() == o.rest
  {
    var ok, nextFree := ReadI32(stream);
    if !ok {
      return Failed;
    }
    var data;
    ok, data := ReadI32(stream);
    if !ok {
      return Failed;
    }
    var u;
    ok, u := stream.ReadU16();
    if !ok {
      return Failed;
    }
    var length := ToI16(u);
    if length < 0 {
      return OutsideBuffer;
    }
    var suffix: seq<Byte> := [];
    if length > 0 {
      ok, suffix := stream.ReadChars(length);
      if !ok {
        return Failed;
      }
    }
    return Got(Block(nextFree, data, Some(suffix)), stream.mem[stream.pos..]);
  }

  /** tail_fmread. A refusal puts the cursor back to where it was. */
  method ReadTail(stream: Stream) returns (o: Outcome<(int, seq<Block>)>)
    requires stream.Valid()
    modifies stream`pos
    ensures stream.Valid() && o == ParseTail(old(stream.Unread()))
    ensures o.Got? ==> stream.Unread() == o.rest
    ensures o.Failed? ==> stream.pos == old(stream.pos)
  {
    var savePos := stream.pos;
    var ok, sig := stream.ReadU32();
    if !ok || sig != TAIL_SIGNATURE {
      stream.pos := savePos;
      return Failed;
    }
    var firstFree;
    ok, firstFree := ReadI32(stream);
    if !ok {
      stream.pos := savePos;
      return Failed;
    }
    var num;
    ok, num := ReadI32(stream);
    if !ok || num < 0 {
      stream.pos := savePos;
      return Failed;
    }
    var ts := ReadBlocks(stream, num);
    match ts
    case Got(v, rest) =>
      return Got((firstFree, v), rest);
    case Failed =>
      stream.pos := savePos;
      return Failed;
    case OutsideBuffer =>
      return OutsideBuffer;
  }

  method ReadBlocks(stream: Stream, num: nat) returns (o: Outcome<seq<Block>>)
    requires stream.Valid()
    modifies stream`pos
    ensures stream.Valid() && o == ParseBlocks(old(stream.Unread()), num)
    ensures o.Got? ==> stream.Unread() == o.rest
  {
    var ts := [];
    ghost var whole := ParseBlocks(old(stream.Unread()), num);
    PrependNothing(whole);
    for i := 0 to num
      invariant stream.Valid()
      invariant whole == Prepend(ts, ParseBlocks(stream.Unread(), num - i))
    {
      var b := ReadBlock(stream);
      if b.Failed? {
        return Failed;
      } else if b.OutsideBuffer? {
        return OutsideBuffer;
      }
      PrependTwice(ts, b.value, ParseBlocks(stream.Unread(), num - i - 1));
      ts := ts + [b.value];
    }
    assert ts + [] == ts;
    return Got(ts, stream.mem[stream.pos..]);
  }

  // ---------------------------------------------------------------- there and back

  /** What reading makes of a block: its suffix up to the stored length, and the empty string for
      the null pointer of a free block. */
  function ReadBack(b: Block): Block {
    b.(suffix := Some(Stored(SuffixOf(b))))
  }

  function ReadBackAll(ts: seq<Block>): (r: seq<Block>)
    ensures |r| == |ts| && forall i {:trigger r[i]} :: 0 <= i < |ts| ==> r[i] == ReadBack(ts[i])
  {
    seq(|ts|, i requires 0 <= i < |ts| => ReadBack(ts[i]))
  }

  /** The stored length of the suffix is not negative. */
  predicate Readable(b: Block) { ToI16(ToU16(|SuffixOf(b)|)) >= 0 }

  ghost predicate AllReadable(ts: seq<Block>) {
    forall i {:trigger ts[i]} :: 0 <= i < |ts| ==> Readable(ts[i])
  }

  ghost predicate ShortSuffixes(ts: seq<Block>) {
    forall i {:trigger ts[i]} :: 0 <= i < |ts| ==> |SuffixOf(ts[i])| < 0x8000
  }

  /** Suffixes survive exactly below 0x8000 characters. */
  lemma SuffixSurvives(b: Block)
    ensures Readable(b) && ReadBack(b).suffix == Some(SuffixOf(b)) <==> |SuffixOf(b)| < 0x8000
    ensures |Stored(SuffixOf(b))| <= |SuffixOf(b)|
  {
    var s := SuffixOf(b);
    if |s| < 0x8000 {
      assert s[..|s|] == s;
    }
  }

  lemma I32ThereAndBack(v: int, rest: seq<Byte>)
    requires IsI32(v)
    ensures ParseI32(Bytes32(ToU32(v)) + rest) == Got(v, rest)
  {
    Word32RoundTrip(v);
    var b := Bytes32(ToU32(v)) + rest;
    assert b[..4] == Bytes32(ToU32(v)) && b[4..] == rest;
  }

  lemma CellThereAndBack(c: Cell, rest: seq<Byte>)
    requires CellFits(c)
    ensures ParseCell(CellImage(c) + rest) == Got(c, rest)
  {
    var x, y := Bytes32(ToU32(c.base)), Bytes32(ToU32(c.check));
    ThreeParts(x, y, rest);
    I32ThereAndBack(c.base, y + rest);
    I32ThereAndBack(c.check, rest);
  }

  lemma {:induction false} CellListThereAndBack(cs: seq<Cell>, rest: seq<Byte>)
    requires forall i {:trigger cs[i]} :: 0 <= i < |cs| ==> CellFits(cs[i])
    ensures ParseCellList(CellsImage(cs) + rest, |cs|) == Got(cs, rest)
    decreases |cs|
  {
    if cs == [] {
      assert CellsImage(cs) + rest == rest;
    } else {
      FirstCell(cs, rest);
      CellThereAndBack(cs[0], CellsImage(cs[1..]) + rest);
      CellListThereAndBack(cs[1..], rest);
      HeadAndTail(cs);
    }
  }

  /** Double arrays come back cell by cell. */
  lemma CellsThereAndBack(cs: seq<Cell>, rest: seq<Byte>)
    requires forall i {:trigger cs[i]} :: 0 <= i < |cs| ==> CellFits(cs[i])
    requires |cs| > 0 && cs[0] == Cell(SIGNATURE, |cs|)
    ensures ParseCells(CellsImage(cs) + rest) == Got(cs, rest)
  {
    FirstCell(cs, rest);
    CellThereAndBack(cs[0], CellsImage(cs[1..]) + rest);
    CellListThereAndBack(cs[1..], rest);
    HeadAndTail(cs);
  }

  lemma HeadAndTail(cs: seq<Cell>)
    requires cs != []
    ensures [cs[0]] + cs[1..] == cs
  {
  }

  lemma FirstCell(cs: seq<Cell>, rest: seq<Byte>)
    requires cs != []
    ensures CellsImage(cs) + rest == CellImage(cs[0]) + (CellsImage(cs[1..]) + rest)
    ensures CellsImage(cs) == CellImage(cs[0]) + CellsImage(cs[1..])
  {
    ThreeParts(CellImage(cs[0]), CellsImage(cs[1..]), rest);
  }

  lemma FirstBlock(ts: seq<Block>, rest: seq<Byte>)
    requires ts != [] && forall i {:trigger ts[i]} :: 0 <= i < |ts| ==> BlockFits(ts[i])
    ensures BlocksImage(ts) + rest == BlockImage(ts[0]) + (BlocksImage(ts[1..]) + rest)
  {
    var a, b := HeadImage(ts);
    ThreeParts(a, b, rest);
  }

  lemma HeadImage(ts: seq<Block>) returns (a: seq<Byte>, b: seq<Byte>)
    requires ts != [] && forall i {:trigger ts[i]} :: 0 <= i < |ts| ==> BlockFits(ts[i])
    ensures a == BlockImage(ts[0]) && b == BlocksImage(ts[1..]) && BlocksImage(ts) == a + b
  {
    a, b := BlockImage(ts[0]), BlocksImage(ts[1..]);
  }

  /** Blocks come back with what is stored of their suffixes, and if the stored length is
      negative, the reader writes outside its buffer. */
  lemma BlockThereAndBack(b: Block, rest: seq<Byte>)
    requires BlockFits(b)
    ensures ParseBlock(BlockImage(b) + rest) == if Readable(b) then Got(ReadBack(b), rest) else OutsideBuffer
  {
    var x, y, len, chars := Bytes32(ToU32(b.nextFree)), Bytes32(ToU32(b.data)), Bytes16(ToU16(|SuffixOf(b)|)),
          AsBytes(Stored(SuffixOf(b)));
    assert BlockImage(b) + rest == x + (y + (len + (chars + rest)));
    I32ThereAndBack(b.nextFree, y + (len + (chars + rest)));
    I32ThereAndBack(b.data, len + (chars + rest));
    SuffixThereAndBack(SuffixOf(b), len + (chars + rest), rest);
  }

  lemma SuffixThereAndBack(s: seq<int>, body: seq<Byte>, rest: seq<Byte>)
    requires AllBytes(s) && body == Bytes16(ToU16(|s|)) + (AsBytes(Stored(s)) + rest)
    ensures |body| >= 2 && ToI16(Word16(body[..2])) == ToI16(ToU16(|s|))
    ensures var n := ToI16(ToU16(|s|));
            n >= 0 ==> n <= |body[2..]| && body[2..][..n] == Stored(s) && body[2..][n..] == rest
  {
    var len, chars := Bytes16(ToU16(|s|)), AsBytes(Stored(s));
    Word16RoundTrip(ToU16(|s|));
    assert body[..2] == len && body[2..] == chars + rest;
    assert (chars + rest)[..|chars|] == chars && (chars + rest)[|chars|..] == rest;
    assert chars == Stored(s);
  }

  lemma {:induction false} BlocksThereAndBack(ts: seq<Block>, b: seq<Byte>, rest: seq<Byte>)
    requires forall i {:trigger ts[i]} :: 0 <= i < |ts| ==> BlockFits(ts[i])
    requires b == BlocksImage(ts) + rest
    ensures ParseBlocks(b, |ts|) == BlocksRead(ts, rest)
    decreases |ts|
  {
    if ts == [] {
      NoBlocks(b, rest);
    } else {
      var more := FirstBlockBack(ts, b, rest);
      BlocksThereAndBack(ts[1..], more, rest);
      FirstParsed(b, more, rest, ts);
    }
  }

  lemma NoBlocks(b: seq<Byte>, rest: seq<Byte>)
    requires b == BlocksImage([]) + rest
    ensures ParseBlocks(b, 0) == BlocksRead([], rest)
  {
    assert b == rest;
  }

  lemma FirstBlockBack(ts: seq<Block>, b: seq<Byte>, rest: seq<Byte>) returns (more: seq<Byte>)
    requires ts != [] && forall i {:trigger ts[i]} :: 0 <= i < |ts| ==> BlockFits(ts[i])
    requires b == BlocksImage(ts) + rest
    ensures more == BlocksImage(ts[1..]) + rest
    ensures ParseBlock(b) == if Readable(ts[0]) then Got(ReadBack(ts[0]), more) else OutsideBuffer
  {
    more := BlocksImage(ts[1..]) + rest;
    FirstBlock(ts, rest);
    BlockThereAndBack(ts[0], more);
  }

  /** What reading makes of a table of blocks with more bytes behind it. */
  ghost function BlocksRead(ts: seq<Block>, rest: seq<Byte>): Outcome<seq<Block>> {
    if AllReadable(ts) then Got(ReadBackAll(ts), rest) else OutsideBuffer
  }

  lemma FirstParsed(b: seq<Byte>, more: seq<Byte>, rest: seq<Byte>, ts: seq<Block>)
    requires ts != [] && ParseBlock(b) == if Readable(ts[0]) then Got(ReadBack(ts[0]), more) else OutsideBuffer
    requires ParseBlocks(more, |ts| - 1) == BlocksRead(ts[1..], rest)
    ensures ParseBlocks(b, |ts|) == BlocksRead(ts, rest)
  {
    ReadBackFirst(ts);
  }

  lemma ReadBackFirst(ts: seq<Block>)
    requires ts != []
    ensures [ReadBack(ts[0])] + ReadBackAll(ts[1..]) == ReadBackAll(ts)
    ensures AllReadable(ts) <==> Readable(ts[0]) && AllReadable(ts[1..])
  {
    assert forall i {:trigger ts[i]} :: 0 < i < |ts| ==> ts[i] == ts[1..][i - 1];
  }

  /** Tail tables come back block by block, if all stored lengths can be read. */
  lemma TailThereAndBack(ts: seq<Block>, ff: int, rest: seq<Byte>)
    requires forall i {:trigger ts[i]} :: 0 <= i < |ts| ==> BlockFits(ts[i])
    requires IsI32(ff) && |ts| < 0x8000_0000
    ensures ParseTail(TailImage(ts, ff) + rest)
         == if AllReadable(ts) then Got((ff, ReadBackAll(ts)), rest) else OutsideBuffer
  {
    var s, f, n, blocks := Bytes32(TAIL_SIGNATURE), Bytes32(ToU32(ff)), Bytes32(ToU32(|ts|)), BlocksImage(ts);
    TailHeader(s, f, n, blocks, rest);
    assert TailImage(ts, ff) == s + f + n + blocks;
    SignatureThereAndBack();
    I32ThereAndBack(ff, n + (blocks + rest));
    I32ThereAndBack(|ts|, blocks + rest);
    BlocksThereAndBack(ts, blocks + rest, rest);
  }

  lemma TailHeader(s: seq<Byte>, f: seq<Byte>, n: seq<Byte>, blocks: seq<Byte>, rest: seq<Byte>)
    requires |s| == 4
    ensures var b := s + f + n + blocks + rest; b[..4] == s && b[4..] == f + (n + (blocks + rest))
  {
  }

  lemma SignatureThereAndBack()
    ensures Word32(Bytes32(TAIL_SIGNATURE)) == TAIL_SIGNATURE
  {
    assert Bound(4) == 0x1_0000_0000;
    NumberOfDigits(TAIL_SIGNATURE, 4);
  }

  // ---------------------------------------------------------------- whole tries

  ghost function Image(st: State): seq<Byte>
    requires Fits(st.cells, st.tails, st.firstFree)
  {
    CellsImage(st.cells) + TailImage(st.tails, st.firstFree)
  }

  /** The data are 32-bit words, and the number of tail blocks is one too. */
  ghost predicate Storable(st: State) {
    && |st.tails| < 0x8000_0000
    && forall x {:trigger x in st.strs} :: x in st.strs ==> IsI32(st.strs[x])
  }

  lemma StorableFits(st: State)
    requires SoundState(st) && Storable(st)
    ensures Fits(st.cells, st.tails, st.firstFree)
  {
    forall i {:trigger st.cells[i]} | 0 <= i < |st.cells| ensures CellFits(st.cells[i]) {
      CellsFit(st, i);
    }
    forall b {:trigger st.tails[b]} | 0 <= b < |st.tails|
      ensures BlockFits(st.tails[b])
    {
      BlocksFit(st, b);
    }
    assert st.chain != [] ==> IsFreed(st.tails, st.chain[0]);
  }

  lemma CellsFit(st: State, i: int)
    requires SoundState(st) && |st.tails| < 0x8000_0000 && 0 <= i < |st.cells|
    ensures CellFits(st.cells[i])
  {
    var t := Tree(st.cells, st.path, st.node);
    if i in st.path {
      var p := st.path[i];
      assert st.node[p] == i;
      LeafFacts(t, st.tails, st.strs, p);
      assert i != ROOT ==> ChildOk(st.cells, st.path, i);
    } else if i > 0 {
      assert Free(st.cells, i) && Linked(st.cells, i);
    }
  }

  lemma BlocksFit(st: State, b: int)
    requires SoundState(st) && Storable(st) && 0 <= b < |st.tails|
    ensures BlockFits(st.tails[b])
  {
    assert BlankIfFreed(st.tails[b], |st.tails|);
    if InUse(st.tails, b) {
      var t := Tree(st.cells, st.path, st.node);
      var p := Owner(t, st.tails, st.strs, b);
      LeafFacts(t, st.tails, st.strs, p);
    }
  }

  datatype Parts = Parts(cells: seq<Cell>, firstFree: int, tails: seq<Block>)

  function ParseTrie(b: seq<Byte>): Outcome<Parts> {
    match ParseCells(b)
    case Failed => Failed
    case OutsideBuffer => OutsideBuffer
    case Got(cells, rest) =>
      match ParseTail(rest)
      case Failed => Failed
      case OutsideBuffer => OutsideBuffer
      case Got((firstFree, tails), rest) => Got(Parts(cells, firstFree, tails), rest)
  }

  /** A state as it comes back: with the suffixes that were stored, and the keys that they spell. */
  ghost function Restore(st: State): State
    requires SoundState(st)
  {
    var ts := ReadBackAll(st.tails);
    st.(tails := ts, strs := Spelled(Tree(st.cells, st.path, st.node), ts))
  }

  /** A trie that is written comes back if and only if no stored length is negative. It is a sound
      one, and has the same contents if and only if all suffixes have fewer than 0x8000 symbols. */
  lemma TrieThereAndBack(st: State, rest: seq<Byte>)
    requires SoundState(st) && Storable(st)
    ensures Fits(st.cells, st.tails, st.firstFree)
    ensures ParseTrie(Image(st) + rest)
         == if AllReadable(st.tails) then Got(Parts(st.cells, st.firstFree, Restore(st).tails), rest) else OutsideBuffer
    ensures SoundState(Restore(st))
    ensures AllReadable(st.tails) && KeyMap(Restore(st).strs) == KeyMap(st.strs) <==> ShortSuffixes(st.tails)
  {
    StorableFits(st);
    var cells, tail := CellsImage(st.cells), TailImage(st.tails, st.firstFree);
    ThreeParts(cells, tail, rest);
    CellsThereAndBack(st.cells, tail + rest);
    TailThereAndBack(st.tails, st.firstFree, rest);
    RestoredSound(st);
    SameIfShort(st);
  }

  /** All keys are there again if and only if all suffixes are short. */
  lemma SameIfShort(st: State)
    requires SoundState(st) && SoundState(Restore(st))
    ensures AllReadable(st.tails) && KeyMap(Restore(st).strs) == KeyMap(st.strs) <==> ShortSuffixes(st.tails)
  {
    if ShortSuffixes(st.tails) {
      ShortRestored(st);
    } else if AllReadable(st.tails) {
      var b :| 0 <= b < |st.tails| && |SuffixOf(st.tails[b])| >= 0x8000;
      var x := LongLost(st, b);
      KeysTell(st.strs, Restore(st).strs, x);
    }
  }

  lemma RestoredSound(st: State)
    requires SoundState(st)
    ensures SoundState(Restore(st))
  {
    RestoredRepresents(Tree(st.cells, st.path, st.node), st.tails, st.strs);
    RestoredChain(st.tails, st.firstFree, st.chain);
  }

  lemma RestoredChain(ts: seq<Block>, ff: int, chain: seq<int>)
    requires ChainOk(ts, ff, chain) && FreedBlank(ts)
    ensures ChainOk(ReadBackAll(ts), ff, chain) && FreedBlank(ReadBackAll(ts))
  {
    var ts' := ReadBackAll(ts);
    forall i {:trigger chain[i]} | 0 <= i < |chain| ensures ts'[chain[i]].nextFree == ts[chain[i]].nextFree {
      assert IsFreed(ts, chain[i]);
    }
    ChainElsewhere(ts, ts', chain);
    forall b {:trigger ts'[b]} | 0 <= b < |ts'| ensures BlankIfFreed(ts'[b], |ts'|) {
      assert BlankIfFreed(ts[b], |ts|);
    }
  }

  /** A leaf that is read back, with the rest of its key cut to the stored length. */
  lemma LeafRestored(t: map<Label, Kind>, ts: seq<Block>, p: Label)
    requires LeafOk(t, ts, p)
    ensures LeafOk(t, ReadBackAll(ts), p)
    ensures KeyStr(Full(t, ts, p)) ==> KeyStr(Full(t, ReadBackAll(ts), p))
    ensures |SuffixOf(ts[t[p].tail - 1])| < 0x8000 ==> Full(t, ReadBackAll(ts), p) == Full(t, ts, p)
    ensures |SuffixOf(ts[t[p].tail - 1])| >= 0x8000 ==> |Full(t, ReadBackAll(ts), p)| < |Full(t, ts, p)|
  {
    var b := ts[t[p].tail - 1];
    assert ReadBackAll(ts)[t[p].tail - 1] == ReadBack(b);
    SuffixSurvives(b);
    var sfx, cut := b.suffix.value, Stored(b.suffix.value);
    assert cut == sfx[..|cut|];
    if KeyStr(Full(t, ts, p)) && !EndsInNul(p) {
      KeyCut(p, sfx, |cut|);
    }
  }

  lemma KeyCut(p: seq<int>, sfx: seq<int>, n: nat)
    requires n <= |sfx| && KeyStr(p + sfx + [0])
    ensures KeyStr(p + sfx[..n] + [0])
  {
    var x, y := p + sfx + [0], p + sfx[..n] + [0];
    assert forall i :: 0 <= i < |y| - 1 ==> y[i] == x[i];
  }

  /** Whatever the lengths, what is read back is a trie: it has the keys that it spells. */
  lemma RestoredRepresents(t: map<Label, Kind>, ts: seq<Block>, m: map<Str, int>)
    requires Represents(t, ts, m) && forall x {:trigger x in m} :: x in m ==> KeyStr(x)
    ensures Represents(t, ReadBackAll(ts), Spelled(t, ReadBackAll(ts)))
    ensures forall x {:trigger x in Spelled(t, ReadBackAll(ts))} :: x in Spelled(t, ReadBackAll(ts)) ==> KeyStr(x)
  {
    var ts' := ReadBackAll(ts);
    forall p {:trigger LeafOk(t, ts', p)} | p in t && t[p].Separate? ensures LeafOk(t, ts', p) {
      LeafFacts(t, ts, m, p);
      LeafRestored(t, ts, p);
    }
    forall b {:trigger Owned(t, ts', b)} ensures Owned(t, ts', b) {
      if InUse(ts', b) {
        assert ts'[b] == ReadBack(ts[b]);
        var p := Owner(t, ts, m, b);
        assert Owns(t, ts', p, b);
      }
    }
    SpelledRepresented(t, ts');
    forall x {:trigger x in Spelled(t, ts')} | x in Spelled(t, ts') ensures KeyStr(x) {
      var p := LeafOf(t, ts', x);
      LeafFacts(t, ts, m, p);
      LeafRestored(t, ts, p);
    }
  }

  lemma ShortRestored(st: State)
    requires SoundState(st) && ShortSuffixes(st.tails)
    ensures AllReadable(st.tails) && Restore(st).strs == st.strs
  {
    var t, ts, m := Tree(st.cells, st.path, st.node), st.tails, st.strs;
    var ts' := ReadBackAll(ts);
    forall p {:trigger LeafSide(t, ts', m, p)} ensures LeafSide(t, ts', m, p) {
      LeafFacts(t, ts, m, p);
      if p in t && t[p].Separate? {
        LeafRestored(t, ts, p);
      }
    }
    forall x {:trigger MapSide(t, ts', x)} | x in m ensures MapSide(t, ts', x) {
      var p := MapFacts(t, ts, m, x);
      LeafRestored(t, ts, p);
      assert Spells(t, ts', p, x);
    }
    RestoredRepresents(t, ts, m);
    Assemble(t, ts', m);
    SpelledOnly(t, ts', m);
  }

  /** A key whose suffix is cut is not there any more. */
  lemma LongLost(st: State, b: int) returns (x: Str)
    requires SoundState(st) && 0 <= b < |st.tails| && |SuffixOf(st.tails[b])| >= 0x8000
    ensures x in st.strs && x !in Restore(st).strs
  {
    var t, ts, ts' := Tree(st.cells, st.path, st.node), st.tails, ReadBackAll(st.tails);
    assert BlankIfFreed(ts[b], |ts|);
    var p := Owner(t, ts, st.strs, b);
    x := Full(t, ts, p);
    LeafFacts(t, ts, st.strs, p);
    LeafRestored(t, ts, p);
    if x in Restore(st).strs {
      var q := LeafOf(t, ts', x);
      assert p <= x;
      SpelledHere(t, ts', p, q, x);
      assert false;
    }
  }

  lemma KeysTell(a: map<Str, int>, b: map<Str, int>, x: Str)
    requires forall y {:trigger y in a} :: y in a ==> KeyStr(y)
    requires forall y {:trigger y in b} :: y in b ==> KeyStr(y)
    requires x in a && x !in b
    ensures KeyMap(a) != KeyMap(b)
  {
    DecodeEncode(x);
    KeyMapAt(a, Decode(x));
    KeyMapAt(b, Decode(x));
  }

  /** trie_mread up to the point where the structures exist. */
  method ReadParts(mem: seq<Byte>) returns (o: Outcome<Parts>)
    requires mem != []
    ensures o == ParseTrie(mem)
  {
    var stream := new Stream(mem);
    assert stream.Unread() == mem;
    var cells := ReadCells(stream);
    if cells.Failed? {
      return Failed;
    } else if cells.OutsideBuffer? {
      return OutsideBuffer;
    }
    var tail := ReadTail(stream);
    match tail
    case Failed => return Failed;
    case OutsideBuffer => return OutsideBuffer;
    case Got((firstFree, tails), rest) => return Got(Parts(cells.value, firstFree, tails), rest);
  }

  /** trie_mread of what a trie in state st has written. */
  method Mread(mem: seq<Byte>, ghost st: State, ghost rest: seq<Byte>) returns (o: Outcome<Trie>)
    requires SoundState(st) && Storable(st) && Fits(st.cells, st.tails, st.firstFree) && mem == Image(st) + rest
    ensures o == OutsideBuffer || o.Got?
    ensures o.Got? <==> AllReadable(st.tails)
    ensures o.Got? ==> o.rest == rest && o.value.Valid() && o.value.Now() == Restore(st) && !o.value.dirty
    ensures o.Got? ==> fresh(o.value) && fresh(o.value.da) && fresh(o.value.tail)
    ensures o.Got? && o.value.Contents() == KeyMap(st.strs) <==> ShortSuffixes(st.tails)
  {
    TrieThereAndBack(st, rest);
    FirstCell(st.cells, []);
    var parts := ReadParts(mem);
    if parts.OutsideBuffer? {
      return OutsideBuffer;
    }
    var t := new Trie.FromParts(parts.value.cells, parts.value.firstFree, parts.value.tails, Restore(st));
    return Got(t, parts.rest);
  }

  /** Keys this short have short suffixes. */
  lemma ShortKeys(st: State)
    requires SoundState(st) && forall x {:trigger x in st.strs} :: x in st.strs ==> |x| <= 0x8000
    ensures ShortSuffixes(st.tails)
  {
    forall b {:trigger st.tails[b]} | 0 <= b < |st.tails| ensures |SuffixOf(st.tails[b])| < 0x8000 {
      assert BlankIfFreed(st.tails[b], |st.tails|);
      if InUse(st.tails, b) {
        var t := Tree(st.cells, st.path, st.node);
        var p := Owner(t, st.tails, st.strs, b);
        LeafFacts(t, st.tails, st.strs, p);
      }
    }
  }

  /** 32769 times the letter a: stored, written, and then the reader writes outside its buffer. */
  method LongKeyUnreadable() returns (stored: Answer<bool>, o: Outcome<Trie>)
    ensures stored == Done(true) && o == OutsideBuffer
  {
    var key := seq(REACH + 1, _ => 0x61);
    var t;
    t, stored := OneKey(key, 1);
    LongKeyKept(t.Now(), key);
    o := ThereAndBack(t);
  }

  /** A trie with one key. */
  method OneKey(key: Key, d: int) returns (t: Trie, stored: Answer<bool>)
    requires ValidKey(key) && POOL_BEGIN + STRIDE * (|key| + 2) < INDEX_MAX
    ensures t.Valid() && fresh(t) && stored == Done(true) && t.Contents() == map[key := d] && |t.tail.tails| <= 1
    ensures t.Unreachable(key) <==> |key| > REACH
  {
    t := new Trie();
    EmptyInReach(t.Contents(), key);
    assert t.NewHead(key);
    stored := t.Store(key, d);
    AnswerIs(stored);
  }

  /** Writes a trie and reads it back. */
  method ThereAndBack(t: Trie) returns (o: Outcome<Trie>)
    requires t.Valid() && Storable(t.Now())
    modifies t`dirty
    ensures o == OutsideBuffer || o.Got?
    ensures o.Got? <==> AllReadable(t.tail.tails)
    ensures o.Got? ==> o.value.Valid() && o.value.Now() == Restore(t.Now())
    ensures o.Got? && o.value.Contents() == old(t.Contents()) <==> ShortSuffixes(t.tail.tails)
  {
    ghost var st := t.Now();
    var mem := Mwrite(t);
    assert Image(st) + [] == mem;
    o := Mread(mem, st, []);
  }

  lemma LongKeyKept(st: State, key: Key)
    requires SoundState(st) && ValidKey(key) && |key| == REACH + 1 && KeyMap(st.strs) == map[key := 1]
    requires Overruns(Tree(st.cells, st.path, st.node), st.tails, Encode(key)) && |st.tails| <= 1
    ensures Storable(st) && !AllReadable(st.tails)
  {
    OnlyKey(st.strs, key, 1);
    OnlyTail(st, Encode(key));
  }

  lemma OnlyKey(strs: map<Str, int>, key: Key, d: int)
    requires (forall x {:trigger x in strs} :: x in strs ==> KeyStr(x)) && ValidKey(key)
    requires KeyMap(strs) == map[][key := d]
    ensures strs == map[Encode(key) := d]
  {
    KeyMapAt(strs, key);
    EncodeDecode(key);
    forall x {:trigger x in strs} | x in strs ensures x == Encode(key) {
      DecodeEncode(x);
      KeyMapAt(strs, Decode(x));
    }
  }

  /** The tail of a key this long that is out of reach has a length that is read as negative. */
  lemma OnlyTail(st: State, x: Str)
    requires SoundState(st) && |x| == REACH + 2 && st.strs.Keys == {x}
    requires Overruns(Tree(st.cells, st.path, st.node), st.tails, x)
    ensures !AllReadable(st.tails)
  {
    var t := Tree(st.cells, st.path, st.node);
    var p :| OverrunsAt(t, st.tails, x, p);
    OverrunTail(t, st.tails, st.strs, x, p);
    assert !Readable(st.tails[t[p].tail - 1]);
  }

  lemma OverrunTail(t: map<Label, Kind>, ts: seq<Block>, m: map<Str, int>, x: Str, p: Label)
    requires Represents(t, ts, m) && OverrunsAt(t, ts, x, p) && |x| == REACH + 2 && m.Keys == {x}
    ensures |SuffixOf(ts[t[p].tail - 1])| == REACH
  {
    LeafFacts(t, ts, m, p);
  }
}
