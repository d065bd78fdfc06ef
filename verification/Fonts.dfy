/** Font tables: serialised blocks of glyphs, and the walks that find a character in them. */
module Fonts {
  import opened Bits

  /** One serialised block: its first code, how many codes it covers, and the bytes after its record. */
  datatype Record = Record(start: int, count: int, body: seq<Octet>)
  {
    predicate Valid() {
      0 <= start < 0x1_0000 && 0 < count < 0x100
    }

    predicate Has(code: int) {
      start <= code < start + count
    }

    function Bytes(): seq<Octet>
      requires Valid()
    {
      [start / 0x100, start % 0x100, count] + body
    }
  }

  /** Two bytes, most significant first. */
  function Word(high: Octet, low: Octet): nat {
    high * 0x100 + low
  }

  /** The bytes `part` lie at `at`. */
  predicate Lies(table: seq<Octet>, at: nat, part: seq<Octet>) {
    at + |part| <= |table| && table[at..at + |part|] == part
  }

  lemma LiesAt(table: seq<Octet>, at: nat, part: seq<Octet>, i: nat)
    requires Lies(table, at, part) && i < |part|
    ensures at + i < |table| && table[at + i] == part[i]
  {
    assert table[at..at + |part|][i] == table[at + i];
  }

  lemma LiesWithin(table: seq<Octet>, at: nat, whole: seq<Octet>, q: nat, part: seq<Octet>)
    requires Lies(table, at, whole) && Lies(whole, q, part)
    ensures Lies(table, at + q, part)
  {
    forall i | 0 <= i < |part|
      ensures table[at + q + i] == part[i]
    {
      LiesAt(whole, q, part, i);
      LiesAt(table, at, whole, q + i);
    }
  }

  lemma LiesSlice(table: seq<Octet>, at: nat, n: nat)
    requires at + n <= |table|
    ensures Lies(table, at, table[at..at + n])
  {
  }

  predicate AllValid(rs: seq<Record>) {
    forall i | 0 <= i < |rs| :: rs[i].Valid()
  }

  /** Blocks one after the other, ended by a record without characters. */
  function Table(rs: seq<Record>): seq<Octet>
    requires AllValid(rs)
  {
    if rs == [] then [0, 0, 0] else rs[0].Bytes() + Table(rs[1..])
  }

  /** Where block `k` begins in its table. */
  function Start(rs: seq<Record>, k: nat): (at: nat)
    requires k <= |rs|
  {
    if k == 0 then 0 else 3 + |rs[0].body| + Start(rs[1..], k - 1)
  }

  /** The first block with the character. */
  function First(rs: seq<Record>, code: int): (found: Option<nat>)
    ensures found.Some? ==> found.value < |rs| && rs[found.value].Has(code)
    ensures forall i | 0 <= i < (if found.Some? then found.value else |rs|) :: !rs[i].Has(code)
  {
    if rs == [] then None
    else if rs[0].Has(code) then Some(0)
    else
      match First(rs[1..], code)
      case None => (assert forall i | 1 <= i < |rs| :: rs[i] == rs[1..][i - 1]; None)
      case Some(i) => (assert forall j | 1 <= j < i + 1 :: rs[j] == rs[1..][j - 1]; Some(i + 1))
  }

  lemma {:induction false} TableTail(rs: seq<Record>, k: nat)
    requires AllValid(rs) && k <= |rs|
    ensures Start(rs, k) + 3 <= |Table(rs)|
    ensures Table(rs)[Start(rs, k)..] == Table(rs[k..])
  {
    if k == 0 {
      assert rs[0..] == rs;
    } else {
      TableTail(rs[1..], k - 1);
      assert rs[1..][k - 1..] == rs[k..];
    }
  }

  /** The bytes of block `k` lie at its start, and the next block begins after them. */
  lemma TableAt(rs: seq<Record>, k: nat)
    requires AllValid(rs) && k < |rs|
    ensures Lies(Table(rs), Start(rs, k), rs[k].Bytes()) && Lies(Table(rs), Start(rs, k) + 3, rs[k].body)
    ensures Start(rs, k + 1) == Start(rs, k) + 3 + |rs[k].body| && Start(rs, k + 1) + 3 <= |Table(rs)|
  {
    TableTail(rs, k);
    NextStart(rs, k);
    TableTail(rs, k + 1);
    var at, bytes := Start(rs, k), rs[k].Bytes();
    var rest := Table(rs)[at..];
    assert rest == bytes + Table(rs[k..][1..]);
    assert rest[..|bytes|] == bytes && rest[..|bytes|] == Table(rs)[at..at + |bytes|];
    assert bytes[3..3 + |rs[k].body|] == rs[k].body;
    LiesWithin(Table(rs), at, bytes, 3, rs[k].body);
  }

  /** The record at the start of block `k`. */
  lemma HeaderAt(rs: seq<Record>, k: nat)
    requires AllValid(rs) && k < |rs|
    ensures
      var t, at := Table(rs), Start(rs, k);
      at + 3 <= |t| && Word(t[at], t[at + 1]) == rs[k].start && t[at + 2] == rs[k].count
  {
    hide Table, Start, Lies;
    TableAt(rs, k);
    LiesAt(Table(rs), Start(rs, k), rs[k].Bytes(), 0);
    LiesAt(Table(rs), Start(rs, k), rs[k].Bytes(), 1);
    LiesAt(Table(rs), Start(rs, k), rs[k].Bytes(), 2);
  }

  lemma {:induction false} NextStart(rs: seq<Record>, k: nat)
    requires k < |rs|
    ensures Start(rs, k + 1) == Start(rs, k) + 3 + |rs[k].body|
  {
    if k > 0 {
      NextStart(rs[1..], k - 1);
    }
  }

  /** The end of the table is a record without characters. */
  lemma TableEnd(rs: seq<Record>)
    requires AllValid(rs)
    ensures Start(rs, |rs|) + 3 == |Table(rs)| && Table(rs)[Start(rs, |rs|) + 2] == 0
  {
    TableTail(rs, |rs|);
    assert Table(rs)[Start(rs, |rs|)..][2] == Table(rs)[Start(rs, |rs|) + 2];
  }

  /** `ssd1306_readUnicodeRecord`: no position after a record without characters. */
  method ReadUnicodeRecord(table: seq<Octet>, at: nat) returns (start: int, count: int, next: Option<nat>)
    requires at + 3 <= |table|
    ensures start == Word(table[at], table[at + 1]) && count == table[at + 2]
    ensures next == if count > 0 then Some(at + 3) else None
  {
    start := Word(table[at], table[at + 1]);
    count := table[at + 2];
    next := if count > 0 then Some(at + 3) else None;
  }

  // Glyphs of one size

  /** A table of blocks whose glyphs all take `size` bytes. */
  predicate FixedBlocks(rs: seq<Record>, size: nat) {
    AllValid(rs) && forall i | 0 <= i < |rs| :: |rs[i].body| == rs[i].count * size
  }

  /** Where the character's glyph lies in its block. */
  function Share(r: Record, size: nat, code: int): int {
    (code - r.start) * size
  }

  lemma ShareInside(r: Record, size: nat, code: int)
    requires r.Has(code) && |r.body| == r.count * size
    ensures 0 <= Share(r, size, code) && Share(r, size, code) + size <= |r.body|
  {
    MulLe(code - r.start + 1, r.count, size);
    MulLe(0, code - r.start, size);
    assert (code - r.start + 1) * size == Share(r, size, code) + size;
  }

  /** Where a table of fixed-size glyphs has the character. */
  function FixedGlyph(rs: seq<Record>, size: nat, code: int): Option<int> {
    match First(rs, code)
    case None => None
    case Some(i) => Some(Start(rs, i) + 3 + Share(rs[i], size, code))
  }

  /** The walk stands at block `k` of a table of fixed-size glyphs, and no earlier block has the character. */
  ghost predicate Passed(rs: seq<Record>, k: nat, at: nat, code: int)
    requires AllValid(rs)
  {
    k <= |rs| && at == Start(rs, k) && forall i | 0 <= i < k :: !rs[i].Has(code)
  }

  /** What the walk reads there, and what it may conclude. */
  lemma SearchStep(rs: seq<Record>, size: nat, k: nat, at: nat, code: int)
    requires FixedBlocks(rs, size) && Passed(rs, k, at, code)
    ensures k <= |rs| && at + 3 <= |Table(rs)|
    ensures k == |rs| ==> Table(rs)[at + 2] == 0 && FixedGlyph(rs, size, code) == None
    ensures k < |rs| ==>
              && Word(Table(rs)[at], Table(rs)[at + 1]) == rs[k].start && Table(rs)[at + 2] == rs[k].count > 0
              && if rs[k].Has(code) then FixedGlyph(rs, size, code) == Some(at + 3 + Share(rs[k], size, code))
                 else 0 <= rs[k].count * size && Passed(rs, k + 1, at + 3 + rs[k].count * size, code)
  {
    hide Table, Start, First, Share, Word, Lies;
    var found := First(rs, code);
    if k < |rs| {
      HeaderAt(rs, k);
      NextStart(rs, k);
      TableAt(rs, k);
      if found.Some? && found.value != k {
        assert k < found.value ==> !rs[k].Has(code);
      }
    } else {
      TableEnd(rs);
    }
  }

  lemma SearchStarts(rs: seq<Record>, code: int)
    requires AllValid(rs)
    ensures Passed(rs, 0, 0, code)
  {
  }

  lemma ShareIs(r: Record, size: nat, code: int)
    ensures Share(r, size, code) == (code - r.start) * size
  {
  }

  /** `ssd1306_searchCharGlyph`. */
  method SearchCharGlyph(table: seq<Octet>, size: nat, code: int, ghost rs: seq<Record>) returns (glyph: Option<int>)
    requires FixedBlocks(rs, size) && table == Table(rs)
    ensures glyph == FixedGlyph(rs, size, code)
  {
    hide Table, FixedGlyph, Passed, Share, Word;
    var data: nat := 0;
    ghost var k: nat := 0;
    SearchStarts(rs, code);
    while true
      invariant k <= |rs| && Passed(rs, k, data, code)
      decreases |rs| - k
    {
      SearchStep(rs, size, k, data, code);
      var start, count, _ := ReadUnicodeRecord(table, data);
      if count == 0 {
        return None;
      }
      data := data + 3;
      if start <= code < start + count {
        ShareIs(rs[k], size, code);
        return Some(data + (code - start) * size);
      }
      data := data + count * size;
      k := k + 1;
    }
  }

  /** What is found is the character's share of the block's bytes. */
  lemma FixedGlyphBytes(rs: seq<Record>, size: nat, code: int)
    requires FixedBlocks(rs, size) && First(rs, code).Some?
    ensures
      var r := rs[First(rs, code).value];
      var at, inside := FixedGlyph(rs, size, code).value, (code - r.start) * size;
      && 0 <= inside && inside + size <= |r.body| && 0 <= at
      && Lies(Table(rs), at, r.body[inside..inside + size])
  {
    hide Table, Start, First, Lies, Share, Record.Bytes;
    var i := First(rs, code).value;
    var r := rs[i];
    var inside := Share(r, size, code);
    ShareIs(r, size, code);
    ShareInside(r, size, code);
    TableAt(rs, i);
    var part := r.body[inside..inside + size];
    LiesSlice(r.body, inside, size);
    LiesWithin(Table(rs), Start(rs, i) + 3, r.body, inside, part);
  }

  // Glyphs of their own width and height

  /** A jump table entry: where in the block's bitmap the glyph is, and its size. */
  datatype Glyph = Glyph(offset: nat, width: Octet, height: Octet)

  datatype Block = Block(start: nat, glyphs: seq<Glyph>, bitmap: seq<Octet>)
  {
    predicate Valid() {
      && start < 0x1_0000 && 0 < |glyphs| < 0x100 && |bitmap| < 0x1_0000
      && forall i | 0 <= i < |glyphs| :: glyphs[i].offset < 0x1_0000
    }

    predicate Has(code: int) {
      start <= code < start + |glyphs|
    }

    /** Four bytes of jump table for each glyph. */
    function Jumps(): seq<Octet>
      requires Valid()
    {
      seq(|glyphs| * 4, i requires 0 <= i < |glyphs| * 4 =>
        var g := glyphs[i / 4];
        if i % 4 == 0 then g.offset / 0x100 else if i % 4 == 1 then g.offset % 0x100
        else if i % 4 == 2 then g.width else g.height)
    }

    /** Jump table, size of the bitmap, bitmap. */
    function Serialised(): Record
      requires Valid()
    {
      Record(start, |glyphs|, Jumps() + [|bitmap| / 0x100, |bitmap| % 0x100] + bitmap)
    }
  }

  predicate BlocksValid(bs: seq<Block>) {
    forall i | 0 <= i < |bs| :: bs[i].Valid()
  }

  function Records(bs: seq<Block>): (rs: seq<Record>)
    requires BlocksValid(bs)
    ensures |rs| == |bs| && AllValid(rs)
  {
    seq(|bs|, i requires 0 <= i < |bs| => bs[i].Serialised())
  }

  /** A place in one of the two tables of the font. */
  datatype Pointer = Pointer(secondary: bool, at: int)

  datatype CharInfo = CharInfo(width: int, height: int, spacing: int, glyph: Option<Pointer>)

  /** The font in use; either table may be missing. */
  datatype Font = Font(width: Octet, primary: Option<seq<Octet>>, secondary: Option<seq<Octet>>)
  {
    /** The tables hold the blocks. */
    ghost predicate Holds(ps: seq<Block>, ss: seq<Block>) {
      && BlocksValid(ps) && BlocksValid(ss)
      && (primary.Some? ==> primary.value == Table(Records(ps)))
      && (secondary.Some? ==> secondary.value == Table(Records(ss)))
    }

    /** The answer for a character the font does not have. */
    function Blank(): CharInfo {
      CharInfo(0, 0, width / 2, if primary.Some? then Some(Pointer(false, 0)) else None)
    }
  }

  /** Where the bitmap of block `k` lies. */
  function BitmapAt(bs: seq<Block>, k: nat): nat
    requires BlocksValid(bs) && k < |bs|
  {
    Start(Records(bs), k) + 3 + |bs[k].glyphs| * 4 + 2
  }

  /** The first block with the character. */
  function FirstBlock(bs: seq<Block>, code: int): (found: Option<nat>)
    requires BlocksValid(bs)
    ensures found.Some? ==> found.value < |bs| && bs[found.value].Has(code)
    ensures forall i | 0 <= i < (if found.Some? then found.value else |bs|) :: !bs[i].Has(code)
  {
    var found := First(Records(bs), code);
    assert forall i | 0 <= i < |bs| :: Records(bs)[i].Has(code) == bs[i].Has(code);
    found
  }

  /** The character in the first of the blocks that has it. */
  function LookUpIn(width: Octet, secondary: bool, bs: seq<Block>, code: int): Option<CharInfo>
    requires BlocksValid(bs)
  {
    match FirstBlock(bs, code)
    case None => None
    case Some(k) =>
      var g := bs[k].glyphs[code - bs[k].start];
      Some(CharInfo(g.width, g.height, if g.width != 0 then 1 else width / 2,
                    Some(Pointer(secondary, BitmapAt(bs, k) + g.offset))))
  }

  /** The character in the first block of the primary table, else of the secondary table. */
  function LookUp(f: Font, ps: seq<Block>, ss: seq<Block>, code: int): Option<CharInfo>
    requires BlocksValid(ps) && BlocksValid(ss)
  {
    if f.primary.None? then None
    else
      match LookUpIn(f.width, false, ps, code)
      case Some(c) => Some(c)
      case None => if f.secondary.Some? then LookUpIn(f.width, true, ss, code) else None
  }

  /** The answer for every character: its glyph, or the blank. */
  function Answer(f: Font, ps: seq<Block>, ss: seq<Block>, code: int): CharInfo
    requires BlocksValid(ps) && BlocksValid(ss)
  {
    match LookUp(f, ps, ss, code)
    case Some(c) => c
    case None => f.Blank()
  }

  /** What a structure that held `info` holds after the call. */
  function Filled(f: Font, ps: seq<Block>, ss: seq<Block>, code: int, info: CharInfo): CharInfo
    requires BlocksValid(ps) && BlocksValid(ss)
  {
    if LookUp(f, ps, ss, code).None? && info.glyph.Some? then info else Answer(f, ps, ss, code)
  }

  /** The record and the bitmap size of a serialised block, where the walk reads them. */
  lemma BlockHeader(bs: seq<Block>, k: nat)
    requires BlocksValid(bs) && k < |bs|
    ensures
      var t, at := Table(Records(bs)), Start(Records(bs), k);
      var end := at + 3 + |bs[k].glyphs| * 4;
      && end + 2 + |bs[k].bitmap| + 3 <= |t|
      && Word(t[at], t[at + 1]) == bs[k].start && t[at + 2] == |bs[k].glyphs|
      && Word(t[end], t[end + 1]) == |bs[k].bitmap|
      && Start(Records(bs), k + 1) == end + 2 + |bs[k].bitmap|
  {
    hide Table, Start, Lies;
    var rs := Records(bs);
    TableAt(rs, k);
    HeaderAt(rs, k);
    var body, n := rs[k].body, |bs[k].glyphs| * 4;
    assert body[n] == |bs[k].bitmap| / 0x100 && body[n + 1] == |bs[k].bitmap| % 0x100;
    LiesAt(Table(rs), Start(rs, k) + 3, body, n);
    LiesAt(Table(rs), Start(rs, k) + 3, body, n + 1);
  }

  lemma JumpLies(b: Block, j: nat)
    requires b.Valid() && j < |b.glyphs|
    ensures
      var g := b.glyphs[j];
      Lies(b.Serialised().body, j * 4, [g.offset / 0x100, g.offset % 0x100, g.width, g.height])
  {
    var q, body, g := j * 4, b.Serialised().body, b.glyphs[j];
    assert (q + 1) / 4 == j && (q + 2) / 4 == j && (q + 3) / 4 == j;
    assert body[q] == b.Jumps()[q] && body[q + 1] == b.Jumps()[q + 1];
    assert body[q + 2] == b.Jumps()[q + 2] && body[q + 3] == b.Jumps()[q + 3];
    assert body[q..q + 4] == [g.offset / 0x100, g.offset % 0x100, g.width, g.height];
  }

  lemma WordOf(n: nat)
    requires n < 0x1_0000
    ensures Word(n / 0x100, n % 0x100) == n
  {
  }

  lemma RecordOf(bs: seq<Block>, k: nat)
    requires BlocksValid(bs) && k < |bs|
    ensures AllValid(Records(bs)) && |Records(bs)| == |bs| && bs[k].Valid() && Records(bs)[k] == bs[k].Serialised()
  {
  }

  lemma OffsetFits(b: Block, j: nat)
    requires b.Valid() && j < |b.glyphs|
    ensures b.glyphs[j].offset < 0x1_0000
  {
  }

  /** One entry of its jump table. */
  lemma BlockJump(bs: seq<Block>, k: nat, j: nat)
    requires BlocksValid(bs) && k < |bs| && j < |bs[k].glyphs|
    ensures
      var t, at, g := Table(Records(bs)), Start(Records(bs), k) + 3 + j * 4, bs[k].glyphs[j];
      at + 4 <= |t| && Word(t[at], t[at + 1]) == g.offset && t[at + 2] == g.width && t[at + 3] == g.height
  {
    hide *;
    RecordOf(bs, k);
    OffsetFits(bs[k], j);
    TableAt(Records(bs), k);
    JumpLies(bs[k], j);
    var t, at, g := Table(Records(bs)), Start(Records(bs), k) + 3, bs[k].glyphs[j];
    var part := [g.offset / 0x100, g.offset % 0x100, g.width, g.height];
    LiesWithin(t, at, Records(bs)[k].body, j * 4, part);
    LiesAt(t, at + j * 4, part, 0);
    LiesAt(t, at + j * 4, part, 1);
    LiesAt(t, at + j * 4, part, 2);
    LiesAt(t, at + j * 4, part, 3);
    WordOf(g.offset);
  }

  /** Part of its bitmap. */
  lemma BlockBitmap(bs: seq<Block>, k: nat, offset: nat, n: nat)
    requires BlocksValid(bs) && k < |bs| && offset + n <= |bs[k].bitmap|
    ensures Lies(Table(Records(bs)), BitmapAt(bs, k) + offset, bs[k].bitmap[offset..offset + n])
  {
    hide Table, Start;
    TableAt(Records(bs), k);
    var body, q, part := Records(bs)[k].body, |bs[k].glyphs| * 4 + 2, bs[k].bitmap[offset..offset + n];
    assert body[q..] == bs[k].bitmap;
    assert body[q + offset..q + offset + n] == body[q..][offset..offset + n];
    LiesWithin(Table(Records(bs)), Start(Records(bs), k) + 3, body, q + offset, part);
  }

  /** The walk stands at block `k`, and no earlier block has the character. */
  ghost predicate Reached(bs: seq<Block>, k: nat, at: nat, code: int)
    requires BlocksValid(bs)
  {
    k <= |bs| && at == Start(Records(bs), k) && forall i | 0 <= i < k :: !bs[i].Has(code)
  }

  /** What the walk reads there, and where it goes on when this block does not have the character either. */
  lemma WalkStep(bs: seq<Block>, k: nat, at: nat, code: int)
    requires BlocksValid(bs) && Reached(bs, k, at, code)
    ensures k <= |bs| && at + 3 <= |Table(Records(bs))|
    ensures k == |bs| ==> Table(Records(bs))[at + 2] == 0
    ensures k < |bs| ==>
      var t, end := Table(Records(bs)), at + 3 + |bs[k].glyphs| * 4;
      && Word(t[at], t[at + 1]) == bs[k].start && t[at + 2] == |bs[k].glyphs| && end + 2 <= |t|
      && (!bs[k].Has(code) ==> Reached(bs, k + 1, end + 2 + Word(t[end], t[end + 1]), code))
  {
    hide Table, Start;
    if k < |bs| {
      BlockHeader(bs, k);
    } else {
      TableEnd(Records(bs));
    }
  }

  /** What may be concluded at block `k` when no earlier block has the character. */
  lemma AtBlock(width: Octet, secondary: bool, bs: seq<Block>, k: nat, at: nat, code: int)
    requires BlocksValid(bs) && Reached(bs, k, at, code) && k <= |bs|
    ensures k == |bs| ==> LookUpIn(width, secondary, bs, code) == None
    ensures k < |bs| && bs[k].Has(code) ==>
      var g := bs[k].glyphs[code - bs[k].start];
      LookUpIn(width, secondary, bs, code) ==
        Some(CharInfo(g.width, g.height, if g.width != 0 then 1 else width / 2,
                      Some(Pointer(secondary, at + 3 + |bs[k].glyphs| * 4 + 2 + g.offset))))
  {
    hide First, Start, Records;
    var found := FirstBlock(bs, code);
    if found.Some? && found.value != k {
      assert k < found.value ==> !bs[k].Has(code);
    }
  }

  lemma WalkStarts(bs: seq<Block>, code: int)
    requires BlocksValid(bs)
    ensures Reached(bs, 0, 0, code)
  {
  }

  lemma JumpAt(bs: seq<Block>, k: nat, start: nat, j: nat, code: int)
    requires BlocksValid(bs) && Reached(bs, k, start, code) && k < |bs| && j < |bs[k].glyphs|
    ensures
      var t, at, g := Table(Records(bs)), start + 3 + j * 4, bs[k].glyphs[j];
      at + 4 <= |t| && Word(t[at], t[at + 1]) == g.offset && t[at + 2] == g.width && t[at + 3] == g.height
  {
    hide Table, Start, Records;
    BlockJump(bs, k, j);
  }

  /** `__ssd1306_newFormatGetBitmap`; `info` is what the caller's structure held before. */
  method GetBitmap(f: Font, code: int, info: CharInfo, ghost ps: seq<Block>, ghost ss: seq<Block>)
      returns (r: CharInfo)
    requires f.Holds(ps, ss)
    ensures r == Filled(f, ps, ss, code, info)
  {
    hide Table, Start, First, FirstBlock, LookUpIn, Records, Reached, Word;
    r := info;
    var second := false;
    var data: Option<nat> := if f.primary.Some? then Some(0) else None;
    ghost var bs: seq<Block>, k: nat := ps, 0;
    WalkStarts(ps, code);
    WalkStarts(ss, code);
    while data.Some?
      invariant r == info && (data.Some? ==> f.primary.Some?)
      invariant bs == (if second then ss else ps)
      invariant second ==> LookUpIn(f.width, false, ps, code) == None
      invariant data.Some? && second ==> f.secondary.Some?
      invariant data.Some? ==> Reached(bs, k, data.value, code)
      invariant data.None? ==> LookUp(f, ps, ss, code) == None
      decreases !second, |bs| - k, data.Some?
    {
      var table := if second then f.secondary.value else f.primary.value;
      WalkStep(bs, k, data.value, code);
      AtBlock(f.width, second, bs, k, data.value, code);
      var start, count, next := ReadUnicodeRecord(table, data.value);
      data := next;
      if data.None? {
        if !second {
          second := true;
          data := if f.secondary.Some? then Some(0) else None;
          bs, k := ss, 0;
          continue;
        }
        break;
      }
      var at := data.value;
      if code < start || code >= start + count {
        at := at + count * 4;
        at := at + Word(table[at], table[at + 1]) + 2;
        data := Some(at);
        k := k + 1;
        continue;
      }
      var index := code - start;
      JumpAt(bs, k, data.value - 3, index, code);
      at := at + index * 4;
      var offset := Word(table[at], table[at + 1]);
      var width, height := table[at + 2], table[at + 3];
      r := CharInfo(width, height, if width != 0 then 1 else f.width / 2,
                    Some(Pointer(second, at + (count - index) * 4 + 2 + offset)));
      break;
    }
    if r.glyph.None? {
      r := f.Blank();
    }
  }

  /** Some block of the primary table, or of a secondary table beside it, has the character. */
  predicate InFont(f: Font, ps: seq<Block>, ss: seq<Block>, code: int) {
    f.primary.Some? && ((exists b | b in ps :: b.Has(code)) || (f.secondary.Some? && exists b | b in ss :: b.Has(code)))
  }

  lemma FoundInBlocks(bs: seq<Block>, code: int)
    requires BlocksValid(bs)
    ensures FirstBlock(bs, code).Some? <==> exists b | b in bs :: b.Has(code)
  {
    var found := FirstBlock(bs, code);
    if found.Some? {
      assert bs[found.value] in bs;
    }
  }

  lemma FoundInFont(f: Font, ps: seq<Block>, ss: seq<Block>, code: int)
    requires BlocksValid(ps) && BlocksValid(ss)
    ensures LookUp(f, ps, ss, code).Some? <==> InFont(f, ps, ss, code)
  {
    hide FirstBlock;
    FoundInBlocks(ps, code);
    FoundInBlocks(ss, code);
  }

  /** The blank replaces an unknown character only in a structure whose glyph pointer was null: the answer is right
      whatever the caller's structure held before exactly for the characters the font has. */
  lemma AnswerNeedsCharacter(f: Font, ps: seq<Block>, ss: seq<Block>, code: int)
    requires f.Holds(ps, ss)
    ensures forall info: CharInfo | info.glyph.None? :: Filled(f, ps, ss, code, info) == Answer(f, ps, ss, code)
    ensures (forall info: CharInfo :: Filled(f, ps, ss, code, info) == Answer(f, ps, ss, code)) <==> InFont(f, ps, ss, code)
  {
    FoundInFont(f, ps, ss, code);
    hide LookUp, InFont;
    if LookUp(f, ps, ss, code).None? {
      var stale := CharInfo(1, 0, 0, Some(Pointer(true, -1)));
      assert Filled(f, ps, ss, code, stale) != Answer(f, ps, ss, code);
    }
  }

  /** The answer comes from the primary table if it has the character, else from the secondary one if that does; an
      unknown character is an empty glyph with half the font's width as spacing. */
  lemma AnswerIs(f: Font, ps: seq<Block>, ss: seq<Block>, code: int)
    requires BlocksValid(ps) && BlocksValid(ss)
    ensures
      var inPrimary := f.primary.Some? && exists b | b in ps :: b.Has(code);
      && (inPrimary ==> Some(Answer(f, ps, ss, code)) == LookUpIn(f.width, false, ps, code))
      && (!inPrimary && InFont(f, ps, ss, code) ==> Some(Answer(f, ps, ss, code)) == LookUpIn(f.width, true, ss, code))
    ensures !InFont(f, ps, ss, code) ==>
              Answer(f, ps, ss, code)
              == CharInfo(0, 0, f.width / 2, if f.primary.Some? then Some(Pointer(false, 0)) else None)
  {
    hide FirstBlock;
    FoundInBlocks(ps, code);
    FoundInBlocks(ss, code);
  }

  /** A block of two glyphs as it is serialised: first code, count, two jump table entries, bitmap size, bitmap; and
      the end of the table. */
  lemma SerialisedExample(a: Octet, b: Octet)
    ensures
      var bs := [Block(0x410, [Glyph(0, 6, 9), Glyph(0x101, 5, 8)], [a, b])];
      && BlocksValid(bs)
      && Table(Records(bs)) == [4, 0x10, 2] + [0, 0, 6, 9] + [1, 1, 5, 8] + [0, 2, a, b] + [0, 0, 0]
  {
    var block := Block(0x410, [Glyph(0, 6, 9), Glyph(0x101, 5, 8)], [a, b]);
    var r := block.Serialised();
    assert block.Jumps() == [0, 0, 6, 9] + [1, 1, 5, 8];
    assert r.Bytes() == [4, 0x10, 2] + [0, 0, 6, 9] + [1, 1, 5, 8] + [0, 2, a, b];
    assert Records([block]) == [r];
    hide Block.Serialised, Record.Bytes, Records;
    TableOne(r);
  }

  lemma TableOne(r: Record)
    requires r.Valid()
    ensures Table([r]) == r.Bytes() + [0, 0, 0]
  {
    assert [r][1..] == [];
  }

  /** The pointer given for a character leads to its bitmap, and its size is the glyph's. */
  lemma GlyphBytes(bs: seq<Block>, width: Octet, secondary: bool, code: int, n: nat)
    requires BlocksValid(bs) && FirstBlock(bs, code).Some?
    requires
      var b := bs[FirstBlock(bs, code).value];
      b.glyphs[code - b.start].offset + n <= |b.bitmap|
    ensures
      var b := bs[FirstBlock(bs, code).value];
      var offset, info := b.glyphs[code - b.start].offset, LookUpIn(width, secondary, bs, code);
      && info.Some? && info.value.width == b.glyphs[code - b.start].width
      && info.value.height == b.glyphs[code - b.start].height
      && info.value.spacing == (if info.value.width > 0 then 1 else width / 2)
      && info.value.glyph.Some? && info.value.glyph.value.secondary == secondary && 0 <= info.value.glyph.value.at
      && Lies(Table(Records(bs)), info.value.glyph.value.at, b.bitmap[offset..offset + n])
  {
    hide Table, Start, FirstBlock, Records, Lies;
    var k := FirstBlock(bs, code).value;
    BlockBitmap(bs, k, bs[k].glyphs[code - bs[k].start].offset, n);
  }
}
