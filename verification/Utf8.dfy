/** The stateful UTF-8 decoder, and text measured with it. */
module Utf8 {
  import opened Bits
  import opened Fonts

  const MORE_CHARS_REQUIRED := 0xFFFF

  /** The decoder's next state and its answer for one byte; state 0 is idle. */
  function Step(lead: int, ch: Octet): (int, int) {
    if lead == 0 then
      if ch >= 0xC0 then (ch, MORE_CHARS_REQUIRED) else (0, ch)
    else (0, lead % 0x20 * 0x40 + ch % 0x40)
  }

  class Decoder {
    /** The pending lead byte, 0 when there is none. */
    var lead: int

    constructor ()
      ensures lead == 0
    {
      lead := 0;
    }

    method Decode(ch: Octet) returns (code: int)
      modifies this
      ensures (lead, code) == Step(old(lead), ch)
    {
      if lead == 0 {
        if ch >= 0xC0 {
          lead := ch;
          return MORE_CHARS_REQUIRED;
        }
        return ch;
      }
      code := lead % 0x20 * 0x40 + ch % 0x40;
      lead := 0;
    }
  }

  /** The state after some bytes, and the characters reported on the way. */
  function Feed(lead: int, bytes: seq<Octet>): (int, seq<int>)
    decreases |bytes|
  {
    if bytes == [] then (lead, [])
    else
      var (next, code) := Step(lead, bytes[0]);
      var (last, codes) := Feed(next, bytes[1..]);
      (last, if code == MORE_CHARS_REQUIRED then codes else [code] + codes)
  }

  /** The encoding of a code point by section 3 of RFC 3629. */
  function Encode(code: int): seq<Octet>
    requires 0 <= code <= 0x10FFFF
  {
    if code < 0x80 then [code]
    else if code < 0x800 then [0xC0 + code / 0x40, 0x80 + code % 0x40]
    else if code < 0x1_0000 then [0xE0 + code / 0x1000, 0x80 + code / 0x40 % 0x40, 0x80 + code % 0x40]
    else [0xF0 + code / 0x4_0000, 0x80 + code / 0x1000 % 0x40, 0x80 + code / 0x40 % 0x40, 0x80 + code % 0x40]
  }

  /** The encodings of two bytes are the pairs from C2 80 to DF BF, in the order of their code points. */
  lemma TwoByteOrder(a: int, b: int)
    requires 0x80 <= a < b <= 0x7FF
    ensures |Encode(a)| == 2 && 0xC2 <= Encode(a)[0] <= 0xDF && 0x80 <= Encode(a)[1] <= 0xBF
    ensures |Encode(b)| == 2 && 0xC2 <= Encode(b)[0] <= 0xDF && 0x80 <= Encode(b)[1] <= 0xBF
    ensures Encode(a)[0] < Encode(b)[0] || (Encode(a)[0] == Encode(b)[0] && Encode(a)[1] < Encode(b)[1])
  {
  }

  /** Examples of section 7 of RFC 3629. */
  lemma EncodeExamples()
    ensures Encode(0x41) == [0x41] && Encode(0x391) == [0xCE, 0x91] && Encode(0x2262) == [0xE2, 0x89, 0xA2]
    ensures Encode(0xD55C) == [0xED, 0x95, 0x9C] && Encode(0x233B4) == [0xF0, 0xA3, 0x8E, 0xB4]
  {
  }

  predicate CodePoints(codes: seq<int>) {
    forall i | 0 <= i < |codes| :: 0 <= codes[i] <= 0x10FFFF
  }

  /** Every code point is encoded in at most two bytes. */
  predicate TwoBytes(codes: seq<int>) {
    forall i | 0 <= i < |codes| :: codes[i] <= 0x7FF
  }

  function EncodeAll(codes: seq<int>): seq<Octet>
    requires CodePoints(codes)
  {
    if codes == [] then [] else assert CodePoints(codes[1..]); Encode(codes[0]) + EncodeAll(codes[1..])
  }

  /** A byte taken in state `lead` and the bytes after it. */
  lemma FeedByte(lead: int, ch: Octet, rest: seq<Octet>)
    ensures
      var (next, code) := Step(lead, ch);
      var (last, codes) := Feed(next, rest);
      Feed(lead, [ch] + rest) == (last, if code == MORE_CHARS_REQUIRED then codes else [code] + codes)
  {
    assert ([ch] + rest)[1..] == rest;
  }

  lemma {:induction false} FeedConcat(lead: int, a: seq<Octet>, b: seq<Octet>)
    ensures
      var (mid, first) := Feed(lead, a);
      var (last, second) := Feed(mid, b);
      Feed(lead, a + b) == (last, first + second)
    decreases |a|
  {
    if a == [] {
      assert a + b == b;
      assert [] + Feed(lead, b).1 == Feed(lead, b).1;
    } else {
      FeedConcat(Step(lead, a[0]).0, a[1..], b);
      FeedOneMore(lead, a[0], a[1..], b);
      assert a == [a[0]] + a[1..];
    }
  }

  lemma FeedOneMore(lead: int, ch: Octet, a: seq<Octet>, b: seq<Octet>)
    requires
      var next := Step(lead, ch).0;
      Feed(next, a + b) == (Feed(Feed(next, a).0, b).0, Feed(next, a).1 + Feed(Feed(next, a).0, b).1)
    ensures
      var c := [ch] + a;
      Feed(lead, c + b) == (Feed(Feed(lead, c).0, b).0, Feed(lead, c).1 + Feed(Feed(lead, c).0, b).1)
  {
    hide Feed, Step;
    var (next, code) := Step(lead, ch);
    var codes, more := Feed(next, a).1, Feed(Feed(next, a).0, b).1;
    Regroup([ch], a, b);
    FeedByte(lead, ch, a + b);
    FeedByte(lead, ch, a);
    Regroup([code], codes, more);
  }

  /** A two-byte pair taken from the idle state is one character. */
  lemma FeedPair(first: Octet, second: Octet, rest: seq<Octet>)
    requires first >= 0xC0
    ensures
      var (last, codes) := Feed(0, rest);
      Feed(0, [first, second] + rest) == (last, [first % 0x20 * 0x40 + second % 0x40] + codes)
  {
    assert [first, second] + rest == [first] + ([second] + rest);
    FeedByte(first, second, rest);
    FeedByte(0, first, [second] + rest);
  }

  /** Bytes below 0xC0 taken from the idle state are characters of their own. */
  lemma {:induction false} FeedSingles(bytes: seq<Octet>)
    requires forall i | 0 <= i < |bytes| :: bytes[i] < 0xC0
    ensures Feed(0, bytes) == (0, bytes)
    decreases |bytes|
  {
    if bytes != [] {
      assert bytes == [bytes[0]] + bytes[1..];
      FeedSingles(bytes[1..]);
    }
  }

  /** One encoded code point leaves the decoder idle; it is decoded as itself exactly when two bytes are enough. */
  lemma FeedOne(code: int)
    requires 0 <= code <= 0x10FFFF
    ensures Feed(0, Encode(code)).0 == 0
    ensures code <= 0x7FF ==> Feed(0, Encode(code)).1 == [code]
    ensures code > 0x7FF ==> |Feed(0, Encode(code)).1| >= 2
  {
    hide Feed;
    var b := Encode(code);
    if code < 0x80 {
      FeedSingles(b);
    } else {
      FeedPair(b[0], b[1], b[2..]);
      FeedSingles(b[2..]);
      assert b == [b[0], b[1]] + b[2..];
    }
  }

  lemma TwoBytesFirst(codes: seq<int>)
    requires codes != []
    ensures CodePoints(codes) ==> CodePoints(codes[1..]) && 0 <= codes[0] <= 0x10FFFF
    ensures TwoBytes(codes) <==> codes[0] <= 0x7FF && TwoBytes(codes[1..])
  {
    var rest := codes[1..];
    if codes[0] <= 0x7FF && TwoBytes(rest) {
      forall i | 0 <= i < |codes|
        ensures codes[i] <= 0x7FF
      {
        if i > 0 {
          assert codes[i] == rest[i - 1];
        }
      }
    }
  }

  lemma EncodeFirst(codes: seq<int>)
    requires codes != [] && CodePoints(codes) && CodePoints(codes[1..])
    ensures EncodeAll(codes) == Encode(codes[0]) + EncodeAll(codes[1..])
  {
  }

  /** Encoded text always leaves the decoder idle, with at least one character for each code point. */
  lemma {:induction false} FeedAll(codes: seq<int>)
    requires CodePoints(codes)
    ensures Feed(0, EncodeAll(codes)).0 == 0
    ensures |Feed(0, EncodeAll(codes)).1| >= |codes|
    ensures if TwoBytes(codes) then Feed(0, EncodeAll(codes)).1 == codes
            else |Feed(0, EncodeAll(codes)).1| > |codes|
  {
    if codes != [] {
      TwoBytesFirst(codes);
      EncodeFirst(codes);
      FeedOne(codes[0]);
      FeedAll(codes[1..]);
      FeedConcat(0, Encode(codes[0]), EncodeAll(codes[1..]));
      hide *;
      assert codes == [codes[0]] + codes[1..];
    }
  }

  /** Decoding undoes encoding exactly for the texts whose code points all fit into two bytes. */
  lemma RoundTrip(codes: seq<int>)
    requires CodePoints(codes)
    ensures Feed(0, EncodeAll(codes)) == (0, codes) <==> TwoBytes(codes)
  {
    FeedAll(codes);
  }

  /** What the font fills a character structure with, given what the structure held before. */
  type LookUpTo = (int, CharInfo) -> CharInfo

  /** Text width and the height of the last character measured. */
  datatype Size = Size(width: int, height: int)

  predicate EndsLine(c: int) {
    c == 0 || c == 0x0D || c == 0x0A
  }

  /** The size of the bytes up to a terminator or line break, from a height of `h`; before the character that starts
      in front of `n` remaining bytes the structure holds `stack(n)`. */
  function Measure(lead: int, bytes: seq<Octet>, lookup: LookUpTo, stack: nat -> CharInfo, h: int): (int, Size)
    decreases |bytes|
  {
    if bytes == [] || EndsLine(bytes[0]) then (lead, Size(0, h))
    else
      var (next, code) := Step(lead, bytes[0]);
      if code == MORE_CHARS_REQUIRED then Measure(next, bytes[1..], lookup, stack, h)
      else
        var info := lookup(code, stack(|bytes|));
        var (last, rest) := Measure(next, bytes[1..], lookup, stack, info.height);
        (last, Size(info.width + info.spacing + rest.width, rest.height))
  }

  /** `ssd1306_getTextSize`; the structure is not initialised before a call, so `stack` may be anything. */
  method GetTextSize(decoder: Decoder, text: seq<Octet>, lookup: LookUpTo, stack: nat -> CharInfo, h: int)
      returns (size: Size)
    modifies decoder
    ensures (decoder.lead, size) == Measure(old(decoder.lead), text, lookup, stack, h)
  {
    var width, height := 0, h;
    var i := 0;
    while i < |text| && text[i] != 0
      invariant 0 <= i <= |text|
      invariant
        var (last, rest) := Measure(decoder.lead, text[i..], lookup, stack, height);
        Measure(old(decoder.lead), text, lookup, stack, h) == (last, Size(width + rest.width, rest.height))
      decreases |text| - i
    {
      if text[i] == 0x0D || text[i] == 0x0A {
        i := i + 1;
        return Size(width, height);
      }
      assert text[i..][1..] == text[i + 1..];
      var code := decoder.Decode(text[i]);
      if code == MORE_CHARS_REQUIRED {
        i := i + 1;
        continue;
      }
      var info := lookup(code, stack(|text| - i));
      width := width + info.width + info.spacing;
      height := info.height;
      i := i + 1;
    }
    size := Size(width, height);
  }

  /** The characters of the first line. */
  function FirstLine(codes: seq<int>): (line: seq<int>)
    ensures |line| <= |codes|
    ensures forall i | 0 <= i < |line| :: line[i] == codes[i] && line[i] != 0 && line[i] != 0x0A && line[i] != 0x0D
    ensures |line| < |codes| ==> codes[|line|] == 0 || codes[|line|] == 0x0A || codes[|line|] == 0x0D
  {
    if codes == [] || EndsLine(codes[0]) then [] else [codes[0]] + FirstLine(codes[1..])
  }

  /** The sum of widths and spacings, and the last height. */
  function SizeOf(line: seq<int>, answer: int -> CharInfo, h: int): Size {
    if line == [] then Size(0, h)
    else
      var info := answer(line[0]);
      var rest := SizeOf(line[1..], answer, info.height);
      Size(info.width + info.spacing + rest.width, rest.height)
  }

  /** One more character adds its width and spacing, and the height is its own. */
  lemma {:induction false} SizeOfMore(line: seq<int>, c: int, answer: int -> CharInfo, h: int)
    ensures SizeOf([], answer, h) == Size(0, h)
    ensures SizeOf(line + [c], answer, h)
            == Size(SizeOf(line, answer, h).width + answer(c).width + answer(c).spacing, answer(c).height)
  {
    if line == [] {
      assert [] + [c] == [c] && [c][1..] == [];
    } else {
      assert (line + [c])[1..] == line[1..] + [c];
      SizeOfMore(line[1..], c, answer, answer(line[0]).height);
    }
  }

  /** How one encoded character is measured in front of more bytes. */
  lemma MeasureOne(code: int, rest: seq<Octet>, lookup: LookUpTo, stack: nat -> CharInfo, h: int)
    requires 0 <= code <= 0x7FF && !EndsLine(code)
    ensures exists n: nat ::
      var info := lookup(code, stack(n));
      var (last, more) := Measure(0, rest, lookup, stack, info.height);
      Measure(0, Encode(code) + rest, lookup, stack, h) ==
        (last, Size(info.width + info.spacing + more.width, more.height))
  {
    var bytes := Encode(code) + rest;
    if code < 0x80 {
      assert bytes[1..] == rest && bytes[0] == code;
      assert Measure(0, bytes, lookup, stack, h).1.height
          == Measure(0, rest, lookup, stack, lookup(code, stack(|bytes|)).height).1.height;
    } else {
      var b := Encode(code);
      var tail := [b[1]] + rest;
      assert bytes[1..] == tail && tail[1..] == rest && bytes[0] == b[0];
      assert Step(b[0], b[1]) == (0, code);
      assert Measure(0, bytes, lookup, stack, h) == Measure(b[0], tail, lookup, stack, h);
      assert Measure(b[0], tail, lookup, stack, h).1.height
          == Measure(0, rest, lookup, stack, lookup(code, stack(|tail|)).height).1.height;
    }
  }

  lemma Encoded(codes: seq<int>)
    requires CodePoints(codes) && TwoBytes(codes) && codes != []
    ensures 0 <= codes[0] <= 0x7FF && CodePoints(codes[1..]) && TwoBytes(codes[1..])
    ensures EncodeAll(codes) == Encode(codes[0]) + EncodeAll(codes[1..])
  {
  }

  lemma LineEnds(codes: seq<int>, lookup: LookUpTo, stack: nat -> CharInfo, h: int)
    requires CodePoints(codes) && TwoBytes(codes) && (codes == [] || EndsLine(codes[0]))
    ensures Measure(0, EncodeAll(codes), lookup, stack, h) == (0, Size(0, h)) && FirstLine(codes) == []
  {
  }

  lemma LineGoesOn(codes: seq<int>)
    requires codes != [] && !EndsLine(codes[0])
    ensures FirstLine(codes) == [codes[0]] + FirstLine(codes[1..]) && FirstLine(codes)[1..] == FirstLine(codes[1..])
    ensures FirstLine(codes)[0] == codes[0]
  {
  }

  /** A lookup that answers each character of the first line whatever the structure held. */
  ghost predicate Answers(lookup: LookUpTo, answer: int -> CharInfo, line: seq<int>) {
    forall i, info | 0 <= i < |line| :: lookup(line[i], info) == answer(line[i])
  }

  /** Encoded text then measures as the sum of its characters' widths and spacings up to its first line break. */
  lemma {:induction false} AnsweredSize(codes: seq<int>, lookup: LookUpTo, answer: int -> CharInfo,
                                        stack: nat -> CharInfo, h: int)
    requires CodePoints(codes) && TwoBytes(codes) && Answers(lookup, answer, FirstLine(codes))
    ensures Measure(0, EncodeAll(codes), lookup, stack, h) == (0, SizeOf(FirstLine(codes), answer, h))
    decreases |codes|
  {
    if codes == [] || EndsLine(codes[0]) {
      LineEnds(codes, lookup, stack, h);
    } else {
      Encoded(codes);
      LineGoesOn(codes);
      MeasureOne(codes[0], EncodeAll(codes[1..]), lookup, stack, h);
      var line := FirstLine(codes);
      assert forall i, info | 0 <= i < |line| - 1 :: lookup(line[1..][i], info) == answer(line[1..][i]) by {
        assert forall i | 0 <= i < |line| - 1 :: line[1..][i] == line[i + 1];
      }
      AnsweredSize(codes[1..], lookup, answer, stack, answer(codes[0]).height);
      hide Measure, Encode, EncodeAll, FirstLine;
      assert forall info :: lookup(line[0], info) == answer(line[0]);
    }
  }

  /** The free font as a lookup, and its answer for each character. */
  function FontLookUp(f: Font, ps: seq<Block>, ss: seq<Block>): LookUpTo
    requires BlocksValid(ps) && BlocksValid(ss)
  {
    (code, info) => Filled(f, ps, ss, code, info)
  }

  function FontAnswer(f: Font, ps: seq<Block>, ss: seq<Block>): int -> CharInfo
    requires BlocksValid(ps) && BlocksValid(ss)
  {
    code => Answer(f, ps, ss, code)
  }

  /** A structure wider than any blank. */
  function Stale(f: Font): CharInfo {
    CharInfo(f.width / 2 + 1, 0, 0, Some(Pointer(true, -1)))
  }

  ghost predicate AllInFont(f: Font, ps: seq<Block>, ss: seq<Block>, line: seq<int>) {
    forall i | 0 <= i < |line| :: InFont(f, ps, ss, line[i])
  }

  lemma AllInRest(f: Font, ps: seq<Block>, ss: seq<Block>, line: seq<int>)
    requires line != []
    ensures AllInFont(f, ps, ss, line) <==> InFont(f, ps, ss, line[0]) && AllInFont(f, ps, ss, line[1..])
  {
    hide InFont;
    assert forall i | 0 <= i < |line| - 1 :: line[1..][i] == line[i + 1];
    if InFont(f, ps, ss, line[0]) && AllInFont(f, ps, ss, line[1..]) {
      forall i | 0 <= i < |line|
        ensures InFont(f, ps, ss, line[i])
      {
        if i > 0 {
          assert line[i] == line[1..][i - 1];
        }
      }
    }
  }

  /** In such a structure each character that the font does not have comes out too wide. */
  lemma {:induction false} StaleIsWider(codes: seq<int>, f: Font, ps: seq<Block>, ss: seq<Block>, h: int, g: int)
    requires CodePoints(codes) && TwoBytes(codes) && BlocksValid(ps) && BlocksValid(ss)
    ensures
      var (measured, right) := (Measure(0, EncodeAll(codes), FontLookUp(f, ps, ss), _ => Stale(f), h).1.width,
                                SizeOf(FirstLine(codes), FontAnswer(f, ps, ss), g).width);
      measured >= right && (!AllInFont(f, ps, ss, FirstLine(codes)) ==> measured > right)
    decreases |codes|
  {
    var lookup, stack := FontLookUp(f, ps, ss), _ => Stale(f);
    if codes == [] || EndsLine(codes[0]) {
      LineEnds(codes, lookup, stack, h);
    } else {
      Encoded(codes);
      LineGoesOn(codes);
      AllInRest(f, ps, ss, FirstLine(codes));
      MeasureOne(codes[0], EncodeAll(codes[1..]), lookup, stack, h);
      FoundInFont(f, ps, ss, codes[0]);
      StaleIsWider(codes[1..], f, ps, ss, lookup(codes[0], Stale(f)).height, FontAnswer(f, ps, ss)(codes[0]).height);
      hide Measure, Encode, EncodeAll, FirstLine, InFont, AllInFont, LookUp;
    }
  }

  /** Whatever the uninitialised structures hold, encoded text measures as the sum of the widths and spacings of its
      characters up to its first line break, if and only if the font has all of these. */
  lemma TextSize(codes: seq<int>, f: Font, ps: seq<Block>, ss: seq<Block>, h: int)
    requires CodePoints(codes) && TwoBytes(codes) && BlocksValid(ps) && BlocksValid(ss)
    ensures (forall stack :: Measure(0, EncodeAll(codes), FontLookUp(f, ps, ss), stack, h)
                             == (0, SizeOf(FirstLine(codes), FontAnswer(f, ps, ss), h)))
            <==> AllInFont(f, ps, ss, FirstLine(codes))
  {
    var lookup, answer, line := FontLookUp(f, ps, ss), FontAnswer(f, ps, ss), FirstLine(codes);
    if AllInFont(f, ps, ss, line) {
      forall i, info | 0 <= i < |line|
        ensures lookup(line[i], info) == answer(line[i])
      {
        FoundInFont(f, ps, ss, line[i]);
      }
      forall stack
        ensures Measure(0, EncodeAll(codes), lookup, stack, h) == (0, SizeOf(line, answer, h))
      {
        AnsweredSize(codes, lookup, answer, stack, h);
      }
    } else {
      StaleIsWider(codes, f, ps, ss, h, h);
      assert Measure(0, EncodeAll(codes), lookup, _ => Stale(f), h) != (0, SizeOf(line, answer, h));
    }
  }
}
