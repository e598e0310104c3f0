// The unified diff format (POSIX.1-2017, diff utility, "Diff -u or -U Output
// Format"): hunk headers read from text, and patches written as text.

module UnifiedDiff {
  import opened Text
  import opened Chunks

  // ---- Reading numbers ----

  predicate IsDigit(c: char) {
    '0' <= c <= '9'
  }

  function DigitValue(c: char): nat
    requires IsDigit(c)
  {
    (c as int) - ('0' as int)
  }

  // Read the leading digits of s after having read `acc`; what is left follows.
  function ReadDigits(s: string, acc: nat): (nat, string) {
    if s != "" && IsDigit(s[0]) then ReadDigits(s[1..], acc * 10 + DigitValue(s[0])) else (acc, s)
  }

  // \d+
  function Number(s: string): Option<(nat, string)> {
    if s != "" && IsDigit(s[0]) then Some(ReadDigits(s, 0)) else None
  }

  // (?:,\d+)?
  function OptionalCount(s: string): (Option<nat>, string) {
    if s != "" && s[0] == ',' && Number(s[1..]).Some? then
      var (n, rest) := Number(s[1..]).value;
      (Some(n), rest)
    else (None, s)
  }

  // `rest` of s after the literal or after one white-space character.
  function After(s: string, literal: string): Option<string> {
    if literal <= s then Some(s[|literal|..]) else None
  }

  function AfterSpace(s: string): Option<string> {
    if s != "" && IsSpace(s[0]) then Some(s[1..]) else None
  }

  // First line and optional count of the new side.
  datatype Header = Header(start: nat, count: Option<nat>)

  // ^@@\s-\d+(?:,\d+)?\s\+(\d+)(?:,(\d+))?\s@@  -- every step reads as much as
  // it can; the pattern leaves no choice that could succeed otherwise.
  function ParseHeader(line: string): Option<Header> {
    match After(line, "@@")
    case None => None
    case Some(s1) =>
      match AfterSpace(s1)
      case None => None
      case Some(s2) =>
        match After(s2, "-")
        case None => None
        case Some(s3) =>
          if Number(s3).None? then None
          else ParseNewSide(OptionalCount(Number(s3).value.1).1)
  }

  // \s\+(\d+)(?:,(\d+))?\s@@
  function ParseNewSide(s: string): Option<Header> {
    match AfterSpace(s)
    case None => None
    case Some(s1) =>
      match After(s1, "+")
      case None => None
      case Some(s2) =>
        if Number(s2).None? then None
        else
          var (start, rest) := Number(s2).value;
          var (count, tail) := OptionalCount(rest);
          match AfterSpace(tail)
          case None => None
          case Some(s3) => if After(s3, "@@").None? then None else Some(Header(start, count))
  }

  // ---- Writing patches ----

  function Digits(n: nat): string {
    if n < 10 then [('0' as int + n) as char] else Digits(n / 10) + [('0' as int + n % 10) as char]
  }

  // One line of a hunk body.
  datatype BodyLine = Context(text: string) | Added(text: string) | Removed(text: string) | NoNewlineMark

  // A hunk; a count of one may be left out of the header, and anything may
  // follow its closing "@@".
  datatype Hunk = Hunk(oldStart: nat, oldCount: Option<nat>, newStart: nat, newCount: Option<nat>, section: string,
      body: seq<BodyLine>)

  function Range(start: nat, count: Option<nat>): string {
    Digits(start) + if count.Some? then "," + Digits(count.value) else ""
  }

  function HeaderLine(h: Hunk): string {
    "@@ -" + Range(h.oldStart, h.oldCount) + " +" + Range(h.newStart, h.newCount) + " @@" + h.section
  }

  function BodyText(b: BodyLine): string {
    match b
    case Context(t) => " " + t
    case Added(t) => "+" + t
    case Removed(t) => "-" + t
    case NoNewlineMark => "\\ No newline at end of file"
  }

  function BodyTexts(body: seq<BodyLine>): seq<string> {
    seq(|body|, i requires 0 <= i < |body| => BodyText(body[i]))
  }

  function HunkLines(h: Hunk): seq<string> {
    [HeaderLine(h)] + BodyTexts(h.body)
  }

  function PatchLines(hs: seq<Hunk>): seq<string> {
    if hs == [] then [] else HunkLines(hs[0]) + PatchLines(hs[1..])
  }

  // The texts of the new side.
  function NewSide(body: seq<BodyLine>): seq<string> {
    if body == [] then []
    else (if body[0].Context? || body[0].Added? then [body[0].text] else []) + NewSide(body[1..])
  }

  function Length(count: Option<nat>): nat {
    if count.Some? then count.value else 1
  }

  // The hunk's body is the new file's lines newStart .. newStart + count - 1.
  ghost predicate Matches(h: Hunk, newFile: seq<string>) {
    && |NewSide(h.body)| == Length(h.newCount)
    && (Length(h.newCount) > 0 ==> 1 <= h.newStart)
    && h.newStart + Length(h.newCount) <= |newFile| + 1
    && (Length(h.newCount) > 0 ==> NewSide(h.body) == newFile[h.newStart - 1..h.newStart - 1 + Length(h.newCount)])
  }

  // Hunks of a diff whose new side is newFile, in order and not overlapping.
  ghost predicate DiffTo(hs: seq<Hunk>, newFile: seq<string>) {
    && (forall k | 0 <= k < |hs| :: Matches(hs[k], newFile))
    && (forall j, k | 0 <= j < k < |hs| && Length(hs[j].newCount) > 0 && Length(hs[k].newCount) > 0 ::
          hs[j].newStart + Length(hs[j].newCount) <= hs[k].newStart)
  }

  // ---- What is written is read back ----

  lemma {:induction false} ReadBack(n: nat, t: string)
    ensures ReadDigits(Digits(n) + t, 0) == ReadDigits(t, n)
    decreases n
  {
    var d := ('0' as int + n % 10) as char;
    if n < 10 {
      assert (Digits(n) + t)[1..] == t;
    } else {
      ReadBack(n / 10, [d] + t);
      assert Digits(n) + t == Digits(n / 10) + ([d] + t);
      assert ([d] + t)[1..] == t;
      assert n / 10 * 10 + n % 10 == n;
    }
  }

  lemma {:induction false} DigitsStart(n: nat)
    ensures Digits(n) != "" && IsDigit(Digits(n)[0])
  {
    if n >= 10 {
      DigitsStart(n / 10);
    }
  }

  lemma {:induction false} NumberBack(n: nat, t: string)
    requires t == "" || !IsDigit(t[0])
    ensures Number(Digits(n) + t) == Some((n, t))
  {
    DigitsStart(n);
    ReadBack(n, t);
  }

  lemma {:induction false} RangeBack(start: nat, count: Option<nat>, t: string)
    requires t != "" && IsSpace(t[0])
    ensures Number(Range(start, count) + t).Some?
    ensures Number(Range(start, count) + t).value.0 == start
    ensures OptionalCount(Number(Range(start, count) + t).value.1) == (count, t)
  {
    if count.Some? {
      var rest := "," + Digits(count.value) + t;
      NumberBack(start, rest);
      NumberBack(count.value, t);
      assert Range(start, count) + t == Digits(start) + rest;
      assert rest[1..] == Digits(count.value) + t;
    } else {
      NumberBack(start, t);
      assert Range(start, count) + t == Digits(start) + t;
    }
  }

  lemma {:induction false} NewSideBack(start: nat, count: Option<nat>, section: string)
    ensures ParseNewSide(" +" + Range(start, count) + " @@" + section) == Some(Header(start, count))
  {
    var tail := " @@" + section;
    var s := " +" + Range(start, count) + tail;
    assert " +" + Range(start, count) + " @@" + section == s;
    RangeBack(start, count, tail);
    assert s[1..] == "+" + Range(start, count) + tail;
    assert s[1..][1..] == Range(start, count) + tail;
    assert tail[1..] == "@@" + section;
  }

  // A hunk header read back gives its start and count.
  lemma {:induction false} HeaderRoundTrip(h: Hunk)
    ensures ParseHeader(HeaderLine(h)) == Some(Header(h.newStart, h.newCount))
  {
    var t := " +" + Range(h.newStart, h.newCount) + " @@" + h.section;
    var before := Range(h.oldStart, h.oldCount);
    assert HeaderLine(h) == "@@ -" + before + t;
    RangeBack(h.oldStart, h.oldCount, t);
    OldSideRead("@@ -" + before + t, before + t);
    NewSideBack(h.newStart, h.newCount, h.section);
  }

  // A header is read as "@@", a space and "-", the old range, then the new side.
  lemma {:induction false} OldSideRead(line: string, s: string)
    requires line == "@@ -" + s && Number(s).Some?
    ensures ParseHeader(line) == ParseNewSide(OptionalCount(Number(s).value.1).1)
  {
    assert line[..2] == "@@" && line[2..] == " -" + s;
    assert line[2..][1..] == "-" + s && line[2..][1..][1..] == s;
  }

  // Body lines are never taken for hunk headers.
  lemma {:induction false} BodyIsNoHeader(b: BodyLine)
    ensures ParseHeader(BodyText(b)) == None
  {
    assert BodyText(b)[0] != '@';
  }

  // ---- Which lines are hunk headers ----

  // What the pattern matches, piece by piece.
  datatype Matched = Matched(sp1: char, oldStart: string, oldCount: Option<string>, sp2: char, newStart: string,
                             newCount: Option<string>, sp3: char, rest: string)

  predicate AllDigits(d: string) {
    d != "" && forall i | 0 <= i < |d| :: IsDigit(d[i])
  }

  // The number that the digits d write, after `acc`.
  function Value(d: string, acc: nat := 0): nat
    requires forall i | 0 <= i < |d| :: IsDigit(d[i])
  {
    if d == "" then acc else Value(d[1..], acc * 10 + DigitValue(d[0]))
  }

  function CountText(count: Option<string>): string {
    if count.Some? then "," + count.value else ""
  }

  // @@, white space, -, digits and perhaps a comma and digits, white space, +,
  // the same again, white space, @@, and anything.
  ghost predicate Fits(line: string, m: Matched) {
    && IsSpace(m.sp1) && IsSpace(m.sp2) && IsSpace(m.sp3) && AllDigits(m.oldStart) && AllDigits(m.newStart)
    && (m.oldCount.Some? ==> AllDigits(m.oldCount.value)) && (m.newCount.Some? ==> AllDigits(m.newCount.value))
    && line == "@@" + ([m.sp1] + ("-" + (m.oldStart + (CountText(m.oldCount) + NewSideText(m)))))
  }

  function NewSideText(m: Matched): string {
    [m.sp2] + ("+" + (m.newStart + (CountText(m.newCount) + ([m.sp3] + ("@@" + m.rest)))))
  }

  lemma {:induction false} DigitsRead(d: string, t: string, acc: nat)
    requires forall i | 0 <= i < |d| :: IsDigit(d[i])
    requires t == "" || !IsDigit(t[0])
    ensures ReadDigits(d + t, acc) == (Value(d, acc), t)
    decreases |d|
  {
    if d == "" {
      assert d + t == t;
    } else {
      assert (d + t)[1..] == d[1..] + t;
      DigitsRead(d[1..], t, acc * 10 + DigitValue(d[0]));
    }
  }

  lemma {:induction false} DigitsSplit(s: string) returns (d: string, t: string)
    ensures s == d + t && (forall i | 0 <= i < |d| :: IsDigit(d[i])) && (t == "" || !IsDigit(t[0]))
    ensures s != "" && IsDigit(s[0]) ==> d != ""
    decreases |s|
  {
    if s != "" && IsDigit(s[0]) {
      d, t := DigitsSplit(s[1..]);
      assert s == [s[0]] + s[1..];
      d := [s[0]] + d;
    } else {
      d, t := "", s;
    }
  }

  lemma {:induction false} RangeRead(start: string, count: Option<string>, t: string)
    requires AllDigits(start) && (count.Some? ==> AllDigits(count.value)) && t != "" && IsSpace(t[0])
    ensures
      var s := start + (CountText(count) + t);
      && Number(s).Some? && Number(s).value.0 == Value(start)
      && OptionalCount(Number(s).value.1) == (if count.Some? then Some(Value(count.value)) else None, t)
  {
    DigitsRead(start, CountText(count) + t, 0);
    if count.Some? {
      assert (CountText(count) + t)[1..] == count.value + t;
      DigitsRead(count.value, t, 0);
    } else {
      assert CountText(count) + t == t;
    }
  }

  lemma {:induction false} RangeSplit(s: string) returns (start: string, count: Option<string>, t: string)
    requires Number(s).Some?
    ensures AllDigits(start) && (count.Some? ==> AllDigits(count.value)) && s == start + (CountText(count) + t)
    ensures t == OptionalCount(Number(s).value.1).1
  {
    var rest;
    start, rest := DigitsSplit(s);
    DigitsRead(start, rest, 0);
    if rest != "" && rest[0] == ',' && Number(rest[1..]).Some? {
      var d;
      d, t := DigitsSplit(rest[1..]);
      DigitsRead(d, t, 0);
      count := Some(d);
      assert rest == [','] + rest[1..];
    } else {
      count, t := None, rest;
    }
  }

  // A line that fits the pattern is read as the numbers it writes,
  lemma {:induction false} FittingRead(line: string, m: Matched)
    requires Fits(line, m)
    ensures ParseHeader(line)
         == Some(Header(Value(m.newStart), if m.newCount.Some? then Some(Value(m.newCount.value)) else None))
  {
    var new', tail := NewSideText(m), [m.sp3] + ("@@" + m.rest);
    var s := m.oldStart + (CountText(m.oldCount) + new');
    assert line[2..] == [m.sp1] + ("-" + s) && line[2..][1..] == "-" + s && line[2..][1..][1..] == s;
    assert line[..2] == "@@";
    RangeRead(m.oldStart, m.oldCount, new');
    var t := m.newStart + (CountText(m.newCount) + tail);
    assert new'[1..] == "+" + t && new'[1..][1..] == t;
    RangeRead(m.newStart, m.newCount, tail);
    assert tail[1..] == "@@" + m.rest;
  }

  // and whatever is read as a header fits the pattern.
  lemma {:induction false} ReadFits(line: string) returns (m: Matched)
    requires ParseHeader(line).Some?
    ensures Fits(line, m)
  {
    var s1 := line[2..];
    var s3 := s1[1..][1..];
    var oldStart, oldCount, s4 := RangeSplit(s3);
    var s6 := s4[1..][1..];
    var newStart, newCount, s7 := RangeSplit(s6);
    var rest := s7[1..][2..];
    m := Matched(s1[0], oldStart, oldCount, s4[0], newStart, newCount, s7[0], rest);
    assert s7 == [m.sp3] + ("@@" + rest);
    assert s4 == [m.sp2] + ("+" + s6);
    assert line == "@@" + ([m.sp1] + ("-" + s3));
  }
}
