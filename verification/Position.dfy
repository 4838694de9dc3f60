/** Source positions of the parser: an incremental calculator that agrees with scanning from the
    start. */
module Position {

  datatype Pos = Pos(line: nat, column: nat)

  /** The number of bytes of a character in UTF-8. */
  function Utf8Length(c: char): nat {
    var n := c as int;
    if n < 0x80 then 1 else if n < 0x800 then 2 else if n < 0x10000 then 3 else 4
  }

  /** The bytes themselves (section 3 of RFC 3629). */
  function Utf8(c: char): seq<nat> {
    var n := c as int;
    if n < 0x80 then [n]
    else if n < 0x800 then [0xC0 + n / 0x40, 0x80 + n % 0x40]
    else if n < 0x10000 then [0xE0 + n / 0x1000, 0x80 + n / 0x40 % 0x40, 0x80 + n % 0x40]
    else [0xF0 + n / 0x40000, 0x80 + n / 0x1000 % 0x40, 0x80 + n / 0x40 % 0x40, 0x80 + n % 0x40]
  }

  /** The number that a leading byte and its continuation bytes spell. */
  function Spelled(bytes: seq<nat>): int
    requires 1 <= |bytes| <= 4
  {
    match |bytes|
    case 1 => bytes[0]
    case 2 => (bytes[0] - 0xC0) * 0x40 + Bits(bytes[1])
    case 3 => (bytes[0] - 0xE0) * 0x1000 + Bits(bytes[1]) * 0x40 + Bits(bytes[2])
    case _ => (bytes[0] - 0xF0) * 0x40000 + Bits(bytes[1]) * 0x1000 + Bits(bytes[2]) * 0x40 + Bits(bytes[3])
  }

  /** The six bits of a continuation byte. */
  function Bits(byte: nat): int {
    byte - 0x80
  }

  /** Encoding a character takes that many bytes: a leading byte, and continuation bytes that spell it. */
  lemma Utf8LengthMeaning(c: char)
    ensures |Utf8(c)| == Utf8Length(c) && Spelled(Utf8(c)) == c as int
    ensures forall i :: 0 <= i < |Utf8(c)| ==> Utf8(c)[i] < 0x100 && (i > 0 <==> 0x80 <= Utf8(c)[i] < 0xC0)
  {
    var n := c as int;
    assert n == n / 0x1000 * 0x1000 + n / 0x40 % 0x40 * 0x40 + n % 0x40;
    assert n / 0x1000 == n / 0x40000 * 0x40 + n / 0x1000 % 0x40;
  }

  function ByteLength(s: string): nat {
    if s == [] then 0 else ByteLength(s[..|s| - 1]) + Utf8Length(s[|s| - 1])
  }

  /** Every line feed starts a line. */
  function LineFeeds(s: string): nat {
    if s == [] then 0 else LineFeeds(s[..|s| - 1]) + if s[|s| - 1] == '\n' then 1 else 0
  }

  /** The characters since the last line feed or carriage return. */
  function SinceBreak(s: string): nat {
    if s == [] || s[|s| - 1] == '\n' || s[|s| - 1] == '\r' then 0 else SinceBreak(s[..|s| - 1]) + 1
  }

  /** The position just behind a prefix of the source, in one scan. */
  function PosAfter(s: string): Pos {
    Pos(1 + LineFeeds(s), 1 + SinceBreak(s))
  }

  /** The column counts from the last break: nothing since then is a break, and what is before it ends
      in one. */
  lemma {:induction false} SinceBreakMeaning(s: string)
    ensures SinceBreak(s) <= |s|
    ensures forall i :: |s| - SinceBreak(s) <= i < |s| ==> s[i] != '\n' && s[i] != '\r'
    ensures SinceBreak(s) < |s| ==> var c := s[|s| - SinceBreak(s) - 1]; c == '\n' || c == '\r'
  {
    if s != [] {
      SinceBreakMeaning(s[..|s| - 1]);
    }
  }

  lemma {:induction false} LineFeedsMeaning(s: string)
    ensures LineFeeds(s) == multiset(s)['\n']
  {
    if s != [] {
      LineFeedsMeaning(s[..|s| - 1]);
      assert s == s[..|s| - 1] + [s[|s| - 1]];
    }
  }

  /** Where character `i` of a source starts, in bytes and as a position. */
  function ByteAt(s: string, i: nat): nat
    requires i <= |s|
  {
    ByteLength(s[..i])
  }

  function PosAt(s: string, i: nat): Pos
    requires i <= |s|
  {
    PosAfter(s[..i])
  }

  /** The position behind one more character. */
  function PosBehind(p: Pos, c: char): Pos {
    if c == '\n' then Pos(p.line + 1, 1) else if c == '\r' then Pos(p.line, 1) else Pos(p.line, p.column + 1)
  }

  lemma OneMoreChar(s: string, i: nat)
    requires i < |s|
    ensures ByteAt(s, i + 1) == ByteAt(s, i) + Utf8Length(s[i])
    ensures PosAt(s, i + 1) == PosBehind(PosAt(s, i), s[i])
  {
    assert s[..i + 1][..i] == s[..i] && s[..i + 1][i] == s[i];
  }

  lemma {:induction false} ByteMonotone(s: string, i: nat, j: nat)
    requires i <= j <= |s|
    ensures ByteAt(s, i) <= ByteAt(s, j)
    ensures i < j ==> ByteAt(s, i) < ByteAt(s, j)
    decreases j - i
  {
    if i < j {
      OneMoreChar(s, j - 1);
      ByteMonotone(s, i, j - 1);
    }
  }

  class PositionCalculator {
    ghost const source: string
    ghost var read: nat  // characters already read
    var input: string
    var pos: nat
    var line: nat
    var column: nat

    ghost predicate Valid()
      reads this
    {
      && read <= |source| && input == source[read..]
      && pos == ByteAt(source, read)
      && Pos(line, column) == PosAt(source, read)
    }

    constructor (input: string)
      ensures Valid() && source == input && pos == 0
    {
      source, read := input, 0;
      this.input, pos, line, column := input, 0, 1, 1;
      new;
      assert source[..0] == [] && source[0..] == source;
    }

    /** One character of the loop below. */
    method Advance(ch: char)
      modifies this`line, this`column
      ensures Pos(line, column) == PosBehind(old(Pos(line, column)), ch)
    {
      match ch {
        case '\r' => column := 1;
        case '\n' => line, column := line + 1, 1;
        case _ => column := column + 1;
      }
    }

    /** Step forward to the start of a token.  Tokens start at character boundaries (the token at byte
        `target` starts at character `n`), and are visited in source order. */
    method Step(target: nat, ghost n: nat) returns (at: Pos)
      requires Valid() && pos <= target && n <= |source| && ByteAt(source, n) == target
      modifies this
      ensures Valid() && pos == target && read == n
      ensures at == PosAt(source, n)
    {
      ghost var start := read;
      if n < start {
        ByteMonotone(source, n, start);
      }
      var bytesToRead := target - pos;
      var taken, bytes := 0, 0;
      while bytes < bytesToRead
        invariant read == start && pos == old(pos) && input == old(input) && start + taken <= n
        invariant bytes == ByteAt(source, start + taken) - ByteAt(source, start)
        invariant Pos(line, column) == PosAt(source, start + taken)
        decreases n - taken
      {
        assert start + taken < n;
        var ch := input[taken];
        OneMoreChar(source, start + taken);
        Advance(ch);
        bytes := bytes + Utf8Length(ch);
        taken := taken + 1;
      }
      ByteMonotone(source, start + taken, n);
      input := input[taken..];
      pos := target;
      read := n;
      at := Pos(line, column);
    }
  }

  /** Any number of forward steps: each token gets the position that scanning its whole prefix once
      gives, however the tokens before it were spaced. */
  method Locate(source: string, targets: seq<nat>, ghost chars: seq<nat>) returns (positions: seq<Pos>)
    requires |chars| == |targets|
    requires forall i :: 0 <= i < |targets| ==> chars[i] <= |source| && ByteAt(source, chars[i]) == targets[i]
    requires forall i, j :: 0 <= i < j < |targets| ==> targets[i] <= targets[j]
    ensures |positions| == |targets|
    ensures forall i :: 0 <= i < |targets| ==> positions[i] == PosAfter(source[..chars[i]])
  {
    var calculator := new PositionCalculator(source);
    positions := [];
    for i := 0 to |targets|
      invariant fresh(calculator) && calculator.Valid() && calculator.source == source
      invariant calculator.pos == if i == 0 then 0 else targets[i - 1]
      invariant |positions| == i
      invariant forall j :: 0 <= j < i ==> positions[j] == PosAfter(source[..chars[j]])
    {
      var at := calculator.Step(targets[i], chars[i]);
      positions := positions + [at];
    }
  }

  // ----- against the line terminators of the specification -----

  /** The length of the line terminator that starts here, if one does (section 2.1.2 of the GraphQL
      October 2021 specification): a line feed, or a carriage return with the line feed behind it, if
      there is one. */
  function TerminatorLength(s: string, i: nat): nat
    requires i < |s|
  {
    if s[i] == '\n' then 1
    else if s[i] == '\r' then if i + 1 < |s| && s[i + 1] == '\n' then 2 else 1
    else 0
  }

  /** Reading terminators off from character `at` on: how many have ended by character `n`. */
  function LinesEnded(s: string, at: nat, n: nat): nat
    requires at <= |s| && n <= |s|
    decreases |s| - at
  {
    if n <= at then 0
    else
      var length := TerminatorLength(s, at);
      if length == 0 then LinesEnded(s, at + 1, n)
      else (if at + length <= n then 1 else 0) + LinesEnded(s, at + length, n)
  }

  /** A carriage return without a line feed behind it. */
  predicate IsLoneReturn(s: string, i: nat)
    requires i < |s|
  {
    s[i] == '\r' && !(i + 1 < |s| && s[i + 1] == '\n')
  }

  function LoneReturns(s: string, at: nat, n: nat): nat
    requires at <= |s| && n <= |s|
    decreases |s| - at
  {
    if n <= at then 0 else (if IsLoneReturn(s, at) then 1 else 0) + LoneReturns(s, at + 1, n)
  }

  lemma {:induction false} NoLoneReturns(s: string, at: nat, n: nat)
    requires at <= |s| && n <= |s|
    ensures LoneReturns(s, at, n) == 0 <==> forall i :: at <= i < n ==> !IsLoneReturn(s, i)
    decreases |s| - at
  {
    if at < n {
      NoLoneReturns(s, at + 1, n);
    }
  }

  lemma {:induction false} LineFeedsConcat(s: string, t: string)
    ensures LineFeeds(s + t) == LineFeeds(s) + LineFeeds(t)
  {
    if t == [] {
      assert s + t == s;
    } else {
      LineFeedsConcat(s, t[..|t| - 1]);
      assert (s + t)[..|s + t| - 1] == s + t[..|t| - 1];
    }
  }

  lemma LineFeedsFirst(s: string, at: nat, n: nat)
    requires at < n <= |s|
    ensures LineFeeds(s[at..n]) == (if s[at] == '\n' then 1 else 0) + LineFeeds(s[at + 1..n])
  {
    assert s[at..n] == [s[at]] + s[at + 1..n];
    assert [s[at]][..0] == [];
    LineFeedsConcat([s[at]], s[at + 1..n]);
  }

  /** The calculator misses exactly the lone carriage returns. */
  lemma {:induction false} LinesByReturns(s: string, at: nat, n: nat)
    requires at <= |s| && n <= |s|
    ensures LinesEnded(s, at, n) == (if at <= n then LineFeeds(s[at..n]) else 0) + LoneReturns(s, at, n)
    decreases |s| - at
  {
    if at < n {
      LineFeedsFirst(s, at, n);
      LinesByReturns(s, at + 1, n);
      if TerminatorLength(s, at) == 2 {
        LinesByReturns(s, at + 2, n);
        if at + 1 < n {
          LineFeedsFirst(s, at + 1, n);
        }
      }
    } else if at == n {
      assert s[at..n] == [];
    }
  }

  /** The line of a position is the one of the specification exactly when every carriage return before
      it has a line feed behind it. */
  lemma LineAgreesIff(s: string, n: nat)
    requires n <= |s|
    ensures PosAt(s, n).line == 1 + LinesEnded(s, 0, n) <==> forall i :: 0 <= i < n ==> !IsLoneReturn(s, i)
    ensures PosAt(s, n).line <= 1 + LinesEnded(s, 0, n)
  {
    LinesByReturns(s, 0, n);
    NoLoneReturns(s, 0, n);
    assert s[0..n] == s[..n];
  }

  /** Behind a single carriage return the calculator is still on line 1, and the specification on
      line 2. */
  lemma LoneReturnMissed()
    ensures PosAt("\r", 1) == Pos(1, 1) && 1 + LinesEnded("\r", 0, 1) == 2
  {
    assert "\r"[..1] == "\r";
    assert IsLoneReturn("\r", 0) && LinesEnded("\r", 1, 1) == 0;
    assert LineFeeds("\r"[..0]) == 0;
  }
}
