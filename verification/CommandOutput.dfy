/** Capturing the output of a remote command (client/command.go): the summary extractor and the two
    truncating writers. Output is a sequence of bytes, each written as one `char`. */
module CommandOutput {
  import opened Text

  // ----- the summary extractor -----

  const START := "<summary>"
  const END := "</summary>"

  /** bufio.MaxScanTokenSize */
  const MAX_TOKEN := 65536

  predicate IsAscii(s: string) {
    forall i :: 0 <= i < |s| ==> s[i] as int < 128
  }

  function LowerByte(c: char): char {
    if 'A' <= c <= 'Z' then ((c as int) + 32) as char else c
  }

  /** bytes.ToLower, on ASCII. */
  function ToLower(s: string): (r: string)
    ensures |r| == |s| && forall i :: 0 <= i < |s| ==> r[i] == LowerByte(s[i])
  {
    seq(|s|, i requires 0 <= i < |s| => LowerByte(s[i]))
  }

  function DropCR(line: string): string {
    if line != [] && line[|line| - 1] == '\r' then line[..|line| - 1] else line
  }

  /** The tokens of a bufio.Scanner over the stream. It stops for good at a line that is too long. */
  function Lines(s: string): seq<string> {
    if s == [] then []
    else
      var i := Index(s, "\n");
      if i == -1 then (if |s| < MAX_TOKEN then [DropCR(s)] else [])
      else if i < MAX_TOKEN then [DropCR(s[..i])] + Lines(s[i + 1..])
      else []
  }

  /** The tag that is looked for. */
  function Tag(inside: bool): string {
    if inside then END else START
  }

  function Kept(s: string, inside: bool): string {
    if inside then s else ""
  }

  /** What is inside summary tags in a text, and whether the text ends inside. */
  function Extract(s: string, inside: bool): (string, bool)
    decreases |s|
  {
    var i := Index(ToLower(s), Tag(inside));
    if i == -1 then (Kept(s, inside), inside)
    else
      var rest := Extract(s[i + |Tag(inside)|..], !inside);
      (Kept(s[..i], inside) + rest.0, rest.1)
  }

  /** Line by line, a newline being added after every line that ends inside. */
  function Summary(lines: seq<string>, inside: bool): string {
    if lines == [] then ""
    else
      var (out, still) := Extract(lines[0], inside);
      out + Kept("\n", still) + Summary(lines[1..], still)
  }

  function Concat(parts: seq<string>): string {
    if parts == [] then "" else parts[0] + Concat(parts[1..])
  }

  // ----- the extractor as it runs, on any bytes -----

  /** bytes.ToLower may turn bytes beyond ASCII into more or fewer bytes. The position of a tag is found in
      the lower-cased line and used in the line itself; None is a position outside the line, which the
      program does not survive. */
  function ExtractBy(lower: string -> string, s: string, inside: bool): Option<(string, bool)>
    decreases |s|
  {
    if s == [] then Some(("", inside))
    else
      var i := Index(lower(s), Tag(inside));
      if i == -1 then Some((Kept(s, inside), inside))
      else if i + |Tag(inside)| > |s| then None
      else Prepend(Kept(s[..i], inside), ExtractBy(lower, s[i + |Tag(inside)|..], !inside))
  }

  function Prepend(front: string, rest: Option<(string, bool)>): Option<(string, bool)> {
    match rest
    case None => None
    case Some((out, inside)) => Some((front + out, inside))
  }

  function SummaryBy(lower: string -> string, lines: seq<string>, inside: bool): Option<string> {
    if lines == [] then Some("")
    else
      match ExtractBy(lower, lines[0], inside)
      case None => None
      case Some((out, still)) =>
        match SummaryBy(lower, lines[1..], still)
        case None => None
        case Some(rest) => Some(out + Kept("\n", still) + rest)
  }

  /** The inner loop of SummaryBuffer.process: each tag shortens the line. */
  method ProcessLine(scanned: string, inside: bool, lower: string -> string) returns (r: Option<(string, bool)>)
    ensures r == ExtractBy(lower, scanned, inside)
  {
    var line, written, insideSummary := scanned, "", inside;
    PrependNothing(ExtractBy(lower, scanned, inside));
    while |line| > 0
      invariant ExtractBy(lower, scanned, inside) == Prepend(written, ExtractBy(lower, line, insideSummary))
      decreases |line|
    {
      ExtractByLast(lower, line, insideSummary);
      if insideSummary {
        var idx := Index(lower(line), END);
        if idx != -1 {
          if idx + |END| > |line| {
            return None;
          }
          ExtractByFrom(lower, line, true, idx);
          PrependTwice(written, line[..idx], ExtractBy(lower, line[idx + |END|..], false));
          written := written + line[..idx];
          line := line[idx + |END|..];
          insideSummary := false;
        } else {
          return Some((written + line, true));
        }
      } else {
        var idx := Index(lower(line), START);
        if idx != -1 {
          if idx + |START| > |line| {
            return None;
          }
          ExtractByFrom(lower, line, false, idx);
          PrependNothing(ExtractBy(lower, line[idx + |START|..], true));
          line := line[idx + |START|..];
          insideSummary := true;
        } else {
          Regroup(written, "", "", "");
          return Some((written, false));
        }
      }
    }
    Regroup(written, "", "", "");
    return Some((written, insideSummary));
  }

  lemma ExtractByLast(lower: string -> string, s: string, inside: bool)
    requires s != []
    ensures var i := Index(lower(s), Tag(inside));
            && (i == -1 ==> ExtractBy(lower, s, inside) == Some((Kept(s, inside), inside)))
            && (i != -1 && i + |Tag(inside)| > |s| ==> ExtractBy(lower, s, inside) == None)
  {
  }

  lemma PrependNothing(rest: Option<(string, bool)>)
    ensures Prepend("", rest) == rest
  {
    if rest.Some? {
      Regroup(rest.value.0, "", "", "");
    }
  }

  lemma PrependTwice(a: string, b: string, rest: Option<(string, bool)>)
    ensures Prepend(a, Prepend(b, rest)) == Prepend(a + b, rest)
  {
    if rest.Some? {
      Regroup(a, b, rest.value.0, "");
    }
  }

  /** SummaryBuffer.process, reading what was written to the pipe. */
  method Process(chunks: seq<string>, lower: string -> string) returns (summary: Option<string>)
    ensures summary == SummaryBy(lower, Lines(Concat(chunks)), false)
  {
    var lines := Lines(Concat(chunks));
    var out, insideSummary := "", false;
    AppendNothing(SummaryBy(lower, lines, false));
    for n := 0 to |lines|
      invariant SummaryBy(lower, lines, false) == Append(out, SummaryBy(lower, lines[n..], insideSummary))
    {
      assert lines[n..][0] == lines[n] && lines[n..][1..] == lines[n + 1..];
      var r := ProcessLine(lines[n], insideSummary, lower);
      if r.None? {
        return None;
      }
      var (written, still) := r.value;
      AppendThree(out, written, Kept("\n", still), SummaryBy(lower, lines[n + 1..], still));
      insideSummary := still;
      out := out + written;
      if insideSummary {
        out := out + "\n";
      } else {
        Regroup(out, "", "", "");
      }
    }
    Regroup(out, "", "", "");
    return Some(out);
  }

  function Append(front: string, rest: Option<string>): Option<string> {
    match rest
    case None => None
    case Some(s) => Some(front + s)
  }

  lemma AppendNothing(rest: Option<string>)
    ensures Append("", rest) == rest
  {
    if rest.Some? {
      Regroup(rest.value, "", "", "");
    }
  }

  lemma AppendThree(a: string, b: string, c: string, rest: Option<string>)
    ensures Append(a, Append(b + c, rest)) == Append(a + b + c, rest)
  {
    if rest.Some? {
      Regroup(a, b, c, rest.value);
      Regroup(a + b, c, rest.value, "");
    }
  }

  // ----- where the tags are found -----

  ghost predicate SplitsAt(lower: string -> string, a: string, w: string, b: string, inside: bool) {
    ToLower(w) == Tag(inside) ==> lower(a + w + b) == lower(a) + Tag(inside) + lower(b)
  }

  ghost predicate AddsNoTag(lower: string -> string, s: string, inside: bool) {
    Index(ToLower(s), Tag(inside)) == -1 ==> Index(lower(s), Tag(inside)) == -1
  }

  /** What is used of bytes.ToLower: a tag is lower-cased by itself, and there is none but those written in
      ASCII letters. */
  ghost predicate Lowers(lower: string -> string) {
    && (forall a, w, b, inside :: SplitsAt(lower, a, w, b, inside))
    && (forall s, inside :: AddsNoTag(lower, s, inside))
  }

  /** For every output and every tag in it: the place that is found is the length of the lower-cased text in
      front of it. So the tag fits into the line if and only if that text does not grow by more than what
      follows the tag, and it is found where it stands if and only if that text keeps its length. */
  lemma TagPlace(lower: string -> string, s: string, inside: bool)
    requires Lowers(lower) && Index(ToLower(s), Tag(inside)) != -1
    ensures var i := Index(ToLower(s), Tag(inside));
            var front, behind := |lower(s[..i])|, |s| - i - |Tag(inside)|;
            && Index(lower(s), Tag(inside)) == front
            && (front + |Tag(inside)| <= |s| <==> front <= i + behind)
            && (Index(lower(s), Tag(inside)) == i <==> front == i)
  {
    var tag := Tag(inside);
    var i := Index(ToLower(s), tag);
    var before, written, rest := CutAt(s, tag);
    assert before == s[..i];
    assert SplitsAt(lower, before, written, rest, inside) && AddsNoTag(lower, before, inside);
    TagBehind(lower(before), tag, lower(rest));
  }

  /** The extractor survives an output with a tag if and only if the tag fits and it survives what follows the
      place that was found. */
  lemma SurvivesIffTagFits(lower: string -> string, s: string, inside: bool)
    requires Lowers(lower) && Index(ToLower(s), Tag(inside)) != -1
    ensures var i := Index(ToLower(s), Tag(inside));
            var after := |lower(s[..i])| + |Tag(inside)|;
            ExtractBy(lower, s, inside).Some? <==> after <= |s| && ExtractBy(lower, s[after..], !inside).Some?
  {
    TagPlace(lower, s, inside);
  }

  /** Every tag that the extractor comes to is found where it stands. */
  ghost predicate PlacesKept(lower: string -> string, s: string, inside: bool)
    decreases |s|
  {
    var i := Index(ToLower(s), Tag(inside));
    s == [] || (Index(lower(s), Tag(inside)) == i && (i == -1 || PlacesKept(lower, s[i + |Tag(inside)|..], !inside)))
  }

  /** The text in front of every tag keeps its length when it is lower-cased. */
  ghost predicate LengthsKept(lower: string -> string, s: string, inside: bool)
    decreases |s|
  {
    var i := Index(ToLower(s), Tag(inside));
    i == -1 || (|lower(s[..i])| == i && LengthsKept(lower, s[i + |Tag(inside)|..], !inside))
  }

  lemma PlacesStep(lower: string -> string, s: string, inside: bool, i: nat)
    requires Index(ToLower(s), Tag(inside)) == i
    ensures var tail := s[i + |Tag(inside)|..];
            && (PlacesKept(lower, s, inside) <==> Index(lower(s), Tag(inside)) == i && PlacesKept(lower, tail, !inside))
            && (LengthsKept(lower, s, inside) <==> |lower(s[..i])| == i && LengthsKept(lower, tail, !inside))
  {
  }

  lemma ExtractByFrom(lower: string -> string, s: string, inside: bool, i: nat)
    requires Index(lower(s), Tag(inside)) == i && i + |Tag(inside)| <= |s|
    ensures ExtractBy(lower, s, inside) ==
            Prepend(Kept(s[..i], inside), ExtractBy(lower, s[i + |Tag(inside)|..], !inside))
  {
  }

  /** For every output, exactly when the tags are found where they stand. */
  lemma {:induction false} PlacesKeptIffLengthsKept(lower: string -> string, s: string, inside: bool)
    requires Lowers(lower)
    ensures PlacesKept(lower, s, inside) <==> LengthsKept(lower, s, inside)
    decreases |s|
  {
    var i := Index(ToLower(s), Tag(inside));
    if i == -1 {
      assert AddsNoTag(lower, s, inside);
    } else {
      TagPlace(lower, s, inside);
      PlacesStep(lower, s, inside, i);
      PlacesKeptIffLengthsKept(lower, s[i + |Tag(inside)|..], !inside);
    }
  }

  /** Then the extractor survives, and what it extracts is right. */
  lemma {:induction false} KeptPlacesExtract(lower: string -> string, s: string, inside: bool)
    requires PlacesKept(lower, s, inside)
    ensures ExtractBy(lower, s, inside) == Some(Extract(s, inside))
    decreases |s|
  {
    if s == [] {
      ExtractNothing(inside);
    } else {
      var i := Index(ToLower(s), Tag(inside));
      if i != -1 {
        PlacesStep(lower, s, inside, i);
        KeptPlacesExtract(lower, s[i + |Tag(inside)|..], !inside);
        ExtractByFrom(lower, s, inside, i);
        ExtractFrom(s, inside, i);
      }
    }
  }

  /** The same for all lines, each begun inside or outside as the line before it ends. */
  ghost predicate AllPlacesKept(lower: string -> string, lines: seq<string>, inside: bool) {
    lines == [] || (PlacesKept(lower, lines[0], inside) &&
                    AllPlacesKept(lower, lines[1..], Extract(lines[0], inside).1))
  }

  lemma {:induction false} KeptPlacesSummarize(lower: string -> string, lines: seq<string>, inside: bool)
    requires AllPlacesKept(lower, lines, inside)
    ensures SummaryBy(lower, lines, inside) == Some(Summary(lines, inside))
    decreases |lines|
  {
    if lines == [] {
    } else {
      KeptPlacesExtract(lower, lines[0], inside);
      KeptPlacesSummarize(lower, lines[1..], Extract(lines[0], inside).1);
    }
  }

  const INVALID_BYTE: string := [255 as char]
  /** The replacement character of UTF-8. */
  const REPLACEMENT: string := [239 as char, 191 as char, 189 as char]

  /** bytes.ToLower replaces a byte that is not UTF-8 by three bytes; a tag behind it at the end of the line does
      not fit. */
  lemma InvalidByteMisplacesTag(lower: string -> string)
    requires Lowers(lower) && lower(INVALID_BYTE) == REPLACEMENT
    ensures SummaryBy(lower, [INVALID_BYTE + START], false).None?
  {
    var s := INVALID_BYTE + START;
    BehindInvalidByte("");
    assert s + "" == s && s[..1] == INVALID_BYTE;
    SurvivesIffTagFits(lower, s, false);
  }

  lemma BehindInvalidByte(rest: string)
    ensures Index(ToLower(INVALID_BYTE + START + rest), START) == 1
  {
    assert ToLower(INVALID_BYTE) == INVALID_BYTE && ToLower(START) == START;
    TagIsFound(INVALID_BYTE, START, rest, START);
  }

  const SHIFTED: string := INVALID_BYTE + START + ("abc" + END)

  /** With more behind the tag the extractor goes on in the wrong place, and nobody notices: the summary of this
      line is "abc", and what is extracted is "c". */
  lemma InvalidByteShiftsSummary(lower: string -> string)
    requires Lowers(lower) && lower(INVALID_BYTE) == REPLACEMENT && |lower("c")| == 1
    ensures ExtractBy(lower, SHIFTED, false) == Some(("c", false))
    ensures Extract(SHIFTED, false) == ("abc", false)
  {
    BehindInvalidByte("abc" + END);
    assert SHIFTED[..1] == INVALID_BYTE;
    TagPlace(lower, SHIFTED, false);
    assert SHIFTED[12..] == "c" + END;
    ShiftedTail(lower);
    PrependNothing(Some(("c", false)));
    ShiftedRight();
  }

  lemma EndBehind(text: string, rest: string)
    requires |text| < |END| && Index(ToLower(text), END) == -1
    ensures Index(ToLower(text + END + rest), END) == |text|
  {
    assert ToLower(END) == END;
    TagIsFound(text, END, rest, END);
  }

  lemma ShiftedTail(lower: string -> string)
    requires Lowers(lower) && |lower("c")| == 1
    ensures ExtractBy(lower, "c" + END, true) == Some(("c", false))
  {
    var s := "c" + END;
    EndBehind("c", "");
    assert s + "" == s && s[..1] == "c" && s[1 + |END|..] == "";
    TagPlace(lower, s, true);
    assert ExtractBy(lower, "", false) == Some(("", false));
    Regroup("c", "", "", "");
  }

  lemma ShiftedRight()
    ensures Extract(SHIFTED, false) == ("abc", false)
  {
    BehindInvalidByte("abc" + END);
    assert SHIFTED[1 + |START|..] == "abc" + END;
    EndBehind("abc", "");
    assert "abc" + END + "" == "abc" + END && ("abc" + END)[..3] == "abc" && ("abc" + END)[3 + |END|..] == "";
    ExtractNothing(false);
    ExtractFrom("abc" + END, true, 3);
    ExtractFrom(SHIFTED, false, 1);
    Regroup("abc", "", "", "");
  }

  // ----- a lower-casing that changes lengths -----

  /** Bytewise lower-casing that replaces the invalid byte, as bytes.ToLower does on ASCII and that byte. */
  function Widen(s: string): (r: string) {
    if s == [] then [] else WideByte(s[0]) + Widen(s[1..])
  }

  function WideByte(c: char): string {
    if c == INVALID_BYTE[0] then REPLACEMENT else [LowerByte(c)]
  }

  lemma {:induction false} WidenConcat(a: string, b: string)
    ensures Widen(a + b) == Widen(a) + Widen(b)
    decreases |a|
  {
    if a == [] {
      assert a + b == b;
    } else {
      assert (a + b)[1..] == a[1..] + b;
      WidenConcat(a[1..], b);
      Regroup(WideByte(a[0]), Widen(a[1..]), Widen(b), "");
    }
  }

  lemma PrefixTail(c: char, s: string, tag: string)
    requires tag != [] && tag[0] == c
    ensures StartsWith([c] + s, tag) <==> StartsWith(s, tag[1..])
  {
    assert tag == [c] + tag[1..];
    if |tag| <= |s| + 1 {
      assert ([c] + s)[0..|tag|] == [c] + s[0..|tag| - 1];
    }
  }

  lemma WidenFirstByte(s: string, tag: string)
    requires StartsWith(Widen(s), tag) && REPLACEMENT[0] !in tag && tag != []
    ensures s != [] && Widen(s) == [tag[0]] + Widen(s[1..]) && ToLower(s) == [tag[0]] + ToLower(s[1..])
  {
    assert tag[0] == Widen(s)[0..|tag|][0];
    WidenHead(s, WideByte(s[0]), Widen(s[1..]));
    assert ToLower(s) == [LowerByte(s[0])] + ToLower(s[1..]);
  }

  lemma WidenHead(s: string, first: string, rest: string)
    requires s != [] && first == WideByte(s[0]) && rest == Widen(s[1..])
    ensures Widen(s) == first + rest && Widen(s) != [] && Widen(s)[0] == first[0]
  {
  }

  /** The bytes of a tag come from themselves or their capitals. */
  lemma {:induction false} WidenPrefix(s: string, tag: string)
    requires StartsWith(Widen(s), tag) && REPLACEMENT[0] !in tag
    ensures StartsWith(ToLower(s), tag)
    decreases |tag|
  {
    if tag == [] {
    } else {
      WidenFirstByte(s, tag);
      PrefixTail(tag[0], Widen(s[1..]), tag);
      WidenPrefix(s[1..], tag[1..]);
      PrefixTail(tag[0], ToLower(s[1..]), tag);
    }
  }

  /** A tag that does not begin with the first byte begins behind what that byte becomes. */
  lemma WidenFirst(s: string, tag: string, j: nat) returns (n: nat)
    requires (tag == START || tag == END) && OccursAt(Widen(s), tag, j) && j > 0
    ensures s != [] && n <= j && n <= |Widen(s)| && Widen(s)[n..] == Widen(s[1..])
  {
    assert Widen(s)[j] == Widen(s)[j..j + |tag|][0];
    n := if s[0] == INVALID_BYTE[0] then 3 else 1;
  }

  lemma TagInTail(s: string, tag: string)
    requires s != [] && Index(ToLower(s[1..]), tag) != -1
    ensures Index(ToLower(s), tag) != -1
  {
    assert ToLower(s)[1..] == ToLower(s[1..]);
    OccursInTail(ToLower(s), tag, 1, Index(ToLower(s[1..]), tag) + 1);
  }

  lemma {:induction false} WidenAddsNoTag(s: string, tag: string, j: nat)
    requires (tag == START || tag == END) && OccursAt(Widen(s), tag, j)
    ensures Index(ToLower(s), tag) != -1
    decreases |s|
  {
    if j == 0 {
      WidenPrefix(s, tag);
      assert OccursAt(ToLower(s), tag, 0);
    } else {
      var n := WidenFirst(s, tag, j);
      OccursInTail(Widen(s), tag, n, j);
      WidenAddsNoTag(s[1..], tag, j - n);
      TagInTail(s, tag);
    }
  }

  lemma {:induction false} WidenIsLower(s: string)
    requires INVALID_BYTE[0] !in s
    ensures Widen(s) == ToLower(s)
    decreases |s|
  {
    if s == [] {
    } else {
      WidenIsLower(s[1..]);
      assert ToLower(s) == [LowerByte(s[0])] + ToLower(s[1..]);
    }
  }

  /** So lower-casings as assumed exist, and they need not keep lengths. */
  lemma WidenLowers()
    ensures Lowers(Widen) && LowersAscii(Widen) && Widen(INVALID_BYTE) == REPLACEMENT && Widen("c") == "c"
  {
    forall a, w, b, inside ensures SplitsAt(Widen, a, w, b, inside) {
      WidenSplits(a, w, b, inside);
    }
    forall s, inside ensures AddsNoTag(Widen, s, inside) {
      WidenHasNoMore(s, inside);
    }
    forall s | IsAscii(s) ensures Widen(s) == ToLower(s) {
      WidenIsLower(s);
    }
    WidenIsLower("c");
    assert Widen(INVALID_BYTE) == REPLACEMENT + Widen([]);
  }

  lemma TagIsAscii(w: string, inside: bool)
    requires ToLower(w) == Tag(inside)
    ensures INVALID_BYTE[0] !in w
  {
  }

  lemma WidenSplits(a: string, w: string, b: string, inside: bool)
    ensures SplitsAt(Widen, a, w, b, inside)
  {
    if ToLower(w) == Tag(inside) {
      WidenConcat(a + w, b);
      WidenConcat(a, w);
      TagIsAscii(w, inside);
      WidenIsLower(w);
    }
  }

  lemma WidenHasNoMore(s: string, inside: bool)
    ensures AddsNoTag(Widen, s, inside)
  {
    var j := Index(Widen(s), Tag(inside));
    if j != -1 {
      WidenAddsNoTag(s, Tag(inside), j);
    }
  }

  // ----- ASCII output -----

  /** On ASCII, lower-casing is byte by byte. */
  ghost predicate LowersAscii(lower: string -> string) {
    forall s :: IsAscii(s) ==> lower(s) == ToLower(s)
  }

  lemma {:induction false} AsciiKeepsPlaces(lower: string -> string, s: string, inside: bool)
    requires LowersAscii(lower) && IsAscii(s)
    ensures PlacesKept(lower, s, inside)
    decreases |s|
  {
    if s == [] {
    } else {
      var i := Index(ToLower(s), Tag(inside));
      if i != -1 {
        AsciiKeepsPlaces(lower, s[i + |Tag(inside)|..], !inside);
      }
    }
  }

  lemma {:induction false} AsciiLinesKeepPlaces(lower: string -> string, lines: seq<string>, inside: bool)
    requires LowersAscii(lower) && forall k :: 0 <= k < |lines| ==> IsAscii(lines[k])
    ensures AllPlacesKept(lower, lines, inside)
    decreases |lines|
  {
    if lines == [] {
    } else {
      AsciiKeepsPlaces(lower, lines[0], inside);
      AsciiLinesKeepPlaces(lower, lines[1..], Extract(lines[0], inside).1);
    }
  }

  /** All tags in ASCII output are found where they stand. */
  lemma AsciiOutputKeepsPlaces(lower: string -> string, s: string)
    requires LowersAscii(lower) && IsAscii(s)
    ensures AllPlacesKept(lower, Lines(s), false)
  {
    LinesAscii(s);
    AsciiLinesKeepPlaces(lower, Lines(s), false);
  }

  lemma {:induction false} LinesAscii(s: string)
    requires IsAscii(s)
    ensures forall k :: 0 <= k < |Lines(s)| ==> IsAscii(Lines(s)[k])
    decreases |s|
  {
    if s == [] {
    } else {
      var i := Index(s, "\n");
      if i != -1 {
        LinesAscii(s[i + 1..]);
      }
    }
  }

  lemma ExtractNothing(inside: bool)
    ensures Extract("", inside) == ("", inside)
  {
    assert !OccursAt(ToLower(""), Tag(inside), Index(ToLower(""), Tag(inside)));
  }

  // ----- lines do not matter -----

  function Unlines(lines: seq<string>): string {
    if lines == [] then "" else lines[0] + "\n" + Unlines(lines[1..])
  }

  lemma LowerConcat(a: string, b: string)
    ensures ToLower(a + b) == ToLower(a) + ToLower(b)
  {
  }

  lemma LowerLine(line: string, rest: string)
    ensures ToLower(line + "\n" + rest) == ToLower(line) + "\n" + ToLower(rest)
  {
  }

  lemma LowerSlice(s: string, i: nat, j: nat)
    requires i <= j <= |s|
    ensures ToLower(s[i..j]) == ToLower(s)[i..j]
  {
  }

  /** A tag that is found in a text is found at the same place when more text follows. */
  lemma FoundBefore(s: string, more: string, tag: string)
    requires Index(ToLower(s), tag) != -1
    ensures Index(ToLower(s + more), tag) == Index(ToLower(s), tag)
  {
    var a, b := ToLower(s), ToLower(more);
    LowerConcat(s, more);
    var i := Index(a, tag);
    forall j | 0 <= j <= i ensures OccursAt(a + b, tag, j) <==> OccursAt(a, tag, j) {
      OccursInFront(a, b, tag, j);
    }
    IndexIs(a + b, tag, i);
  }

  /** An occurrence in `a`, a newline and `b` lies in one of the two. */
  lemma NotAcross(a: string, b: string, tag: string, j: int)
    requires '\n' !in tag && tag != "" && OccursAt(a + "\n" + b, tag, j)
    ensures OccursAt(a, tag, j) || (|a| < j && OccursAt(b, tag, j - |a| - 1))
  {
    var w := a + "\n" + b;
    if j + |tag| <= |a| {
      assert w == a + ("\n" + b);
      OccursInFront(a, "\n" + b, tag, j);
    } else if j <= |a| {
      NoNewline(w, tag, j, |a|);
    } else {
      InSecond(a, b, tag, j);
    }
  }

  lemma InSecond(a: string, b: string, tag: string, j: int)
    requires |a| < j
    ensures OccursAt(a + "\n" + b, tag, j) <==> OccursAt(b, tag, j - |a| - 1)
  {
    assert (a + "\n" + b)[|a| + 1..] == b;
    OccursInTail(a + "\n" + b, tag, |a| + 1, j);
  }

  /** A tag has no newline, so it is not found across one. */
  lemma FoundAfter(s: string, more: string, tag: string)
    requires '\n' !in tag && tag != "" && Index(ToLower(s), tag) == -1
    ensures var n := Index(ToLower(more), tag);
            Index(ToLower(s + "\n" + more), tag) == if n == -1 then -1 else |s| + 1 + n
  {
    var a, b := ToLower(s), ToLower(more);
    var w := a + "\n" + b;
    LowerLine(s, more);
    forall j | OccursAt(w, tag, j) ensures |s| < j && OccursAt(b, tag, j - |s| - 1) {
      NotAcross(a, b, tag, j);
    }
    var n := Index(b, tag);
    if n != -1 {
      InSecond(a, b, tag, |s| + 1 + n);
      IndexIs(w, tag, |s| + 1 + n);
    }
  }

  lemma NoNewline(w: string, tag: string, j: nat, at: nat)
    requires '\n' !in tag && OccursAt(w, tag, j) && j <= at < j + |tag|
    ensures w[at] != '\n'
  {
    assert w[at] == w[j..j + |tag|][at - j];
  }

  function Joined(first: (string, bool), rest: string): (string, bool) {
    (first.0 + Kept("\n", first.1) + Extract(rest, first.1).0, Extract(rest, first.1).1)
  }

  lemma ExtractFrom(s: string, inside: bool, i: nat)
    requires Index(ToLower(s), Tag(inside)) == i
    ensures var rest := Extract(s[i + |Tag(inside)|..], !inside);
            Extract(s, inside) == (Kept(s[..i], inside) + rest.0, rest.1)
  {
  }

  lemma KeptConcat(a: string, b: string, inside: bool)
    ensures Kept(a + b, inside) == Kept(a, inside) + Kept(b, inside)
  {
    Regroup("", "", "", "");
  }

  lemma ExtractTaglessLine(line: string, rest: string, inside: bool)
    requires Index(ToLower(line), Tag(inside)) == -1
    ensures Extract(line + "\n" + rest, inside) == Joined(Extract(line, inside), rest)
  {
    var tag, whole := Tag(inside), line + "\n" + rest;
    FoundAfter(line, rest, tag);
    var n := Index(ToLower(rest), tag);
    KeptConcat(line, "\n", inside);
    if n == -1 {
      KeptConcat(line + "\n", rest, inside);
    } else {
      var at := |line| + 1 + n;
      assert whole[at + |tag|..] == rest[n + |tag|..];
      assert whole[..at] == line + "\n" + rest[..n];
      KeptConcat(line + "\n", rest[..n], inside);
      ExtractFrom(whole, inside, at);
      ExtractFrom(rest, inside, n);
      Regroup(Kept(line + "\n", inside), Kept(rest[..n], inside), Extract(rest[n + |tag|..], !inside).0, "");
    }
  }

  lemma ExtractTaggedLine(line: string, rest: string, inside: bool, i: nat)
    requires Index(ToLower(line), Tag(inside)) == i
    requires var tail := line[i + |Tag(inside)|..];
             Extract(tail + "\n" + rest, !inside) == Joined(Extract(tail, !inside), rest)
    ensures Extract(line + "\n" + rest, inside) == Joined(Extract(line, inside), rest)
  {
    var tag, whole := Tag(inside), line + "\n" + rest;
    FoundInLine(line, rest, tag);
    CutInLine(line, rest, i, i + |tag|);
    ExtractFrom(whole, inside, i);
    ExtractFrom(line, inside, i);
    var first := Extract(line[i + |tag|..], !inside);
    Regroup(Kept(line[..i], inside), first.0, Kept("\n", first.1), Extract(rest, first.1).0);
  }

  lemma FoundInLine(line: string, rest: string, tag: string)
    requires Index(ToLower(line), tag) != -1
    ensures Index(ToLower(line + "\n" + rest), tag) == Index(ToLower(line), tag)
  {
    assert line + "\n" + rest == line + ("\n" + rest);
    FoundBefore(line, "\n" + rest, tag);
  }

  lemma CutInLine(line: string, rest: string, i: nat, j: nat)
    requires i <= j <= |line|
    ensures (line + "\n" + rest)[..i] == line[..i] && (line + "\n" + rest)[j..] == line[j..] + "\n" + rest
  {
  }

  /** Extraction of a line, then of the rest of the text. */
  lemma {:induction false} ExtractLine(line: string, rest: string, inside: bool)
    ensures Extract(line + "\n" + rest, inside) == Joined(Extract(line, inside), rest)
    decreases |line|
  {
    var tag := Tag(inside);
    var i := Index(ToLower(line), tag);
    if i == -1 {
      ExtractTaglessLine(line, rest, inside);
    } else {
      ExtractLine(line[i + |tag|..], rest, !inside);
      ExtractTaggedLine(line, rest, inside, i);
    }
  }

  /** Processing the lines one by one is extracting from the text as a whole. */
  lemma {:induction false} SummaryIgnoresLines(lines: seq<string>, inside: bool)
    ensures Summary(lines, inside) == Extract(Unlines(lines), inside).0
    decreases |lines|
  {
    if lines == [] {
    } else {
      ExtractLine(lines[0], Unlines(lines[1..]), inside);
      SummaryIgnoresLines(lines[1..], Extract(lines[0], inside).1);
    }
  }

  // ----- wrapping and extracting -----

  /** Text outside a summary, and a summary in its tags. */
  datatype Section = Section(outside: string, open: string, text: string, close: string) {
    ghost predicate Valid() {
      && ToLower(open) == START && ToLower(close) == END
      && Index(ToLower(outside), START) == -1 && Index(ToLower(text), END) == -1
    }

    function Str(): string {
      outside + open + text + close
    }
  }

  function Render(sections: seq<Section>, tail: string): string {
    if sections == [] then tail else sections[0].Str() + Render(sections[1..], tail)
  }

  function Texts(sections: seq<Section>): string {
    if sections == [] then "" else sections[0].text + Texts(sections[1..])
  }

  lemma OnlyFirst(w: string, tag: string, j: nat, at: nat)
    requires (tag == START || tag == END) && OccursAt(w, tag, j) && j < at < j + |tag|
    ensures w[at] != '<'
  {
    assert w[at] == w[j..j + |tag|][at - j];
  }

  /** The first tag behind text without tags is found where it stands: a tag starts with `<` and has
      no other `<`, so it cannot begin earlier. */
  lemma TagBehind(a: string, tag: string, c: string)
    requires (tag == START || tag == END) && Index(a, tag) == -1
    ensures Index(a + tag + c, tag) == |a|
  {
    var w := a + tag + c;
    assert w == a + (tag + c) && w[|a|..|a| + |tag|] == tag;
    forall j | 0 <= j < |a| ensures !OccursAt(w, tag, j) {
      if j + |tag| <= |a| {
        OccursInFront(a, tag + c, tag, j);
      } else if OccursAt(w, tag, j) {
        OnlyFirst(w, tag, j, |a|);
      }
    }
    IndexIs(w, tag, |a|);
  }

  lemma TagIsFound(before: string, written: string, more: string, tag: string)
    requires tag == START || tag == END
    requires ToLower(written) == tag && Index(ToLower(before), tag) == -1
    ensures Index(ToLower(before + written + more), tag) == |before|
  {
    LowerConcat(before + written, more);
    LowerConcat(before, written);
    TagBehind(ToLower(before), tag, ToLower(more));
  }

  lemma ExtractSection(s: Section, more: string)
    requires s.Valid()
    ensures Extract(s.Str() + more, false) == (s.text + Extract(more, false).0, Extract(more, false).1)
  {
    var whole := s.Str() + more;
    assert |s.open| == |START| && |s.close| == |END|;
    assert whole == s.outside + s.open + (s.text + s.close + more);
    TagIsFound(s.outside, s.open, s.text + s.close + more, START);
    var inner := s.text + s.close + more;
    assert whole[|s.outside| + |START|..] == inner;
    TagIsFound(s.text, s.close, more, END);
    assert inner[..|s.text|] == s.text && inner[|s.text| + |END|..] == more;
    assert Extract(inner, true) == (s.text + Extract(more, false).0, Extract(more, false).1);
    Regroup(Extract(inner, true).0, "", "", "");
  }

  /** Extraction undoes rendering, for any number of summaries in one text. */
  lemma {:induction false} ExtractRendered(sections: seq<Section>, tail: string)
    requires forall s :: s in sections ==> s.Valid()
    requires Index(ToLower(tail), START) == -1
    ensures Extract(Render(sections, tail), false) == (Texts(sections), false)
    decreases |sections|
  {
    if sections == [] {
    } else {
      ExtractRendered(sections[1..], tail);
      ExtractSection(sections[0], Render(sections[1..], tail));
    }
  }

  /** Every text in which extraction ends outside is such a rendering, so the previous lemma says what
      is extracted from all of them. */
  lemma {:induction false} EveryTextIsRendered(s: string) returns (sections: seq<Section>, tail: string)
    requires !Extract(s, false).1
    ensures (forall x :: x in sections ==> x.Valid()) && Index(ToLower(tail), START) == -1
    ensures Render(sections, tail) == s
    decreases |s|
  {
    var i := Index(ToLower(s), START);
    if i == -1 {
      sections, tail := [], s;
    } else {
      var inner := s[i + |START|..];
      var j := Index(ToLower(inner), END);
      var rest := inner[j + |END|..];
      sections, tail := EveryTextIsRendered(rest);
      var x := FirstSection(s, i, j);
      sections := [x] + sections;
    }
  }

  lemma FirstSection(s: string, i: nat, j: nat) returns (x: Section)
    requires Index(ToLower(s), START) == i && Index(ToLower(s[i + |START|..]), END) == j
    ensures x.Valid() && x.Str() + s[i + |START|..][j + |END|..] == s
  {
    var outside, open, inner := CutAt(s, START);
    var text, close, rest := CutAt(inner, END);
    x := Section(outside, open, text, close);
    Regroup(outside + open, text, close, rest);
  }

  lemma NotInFront(s: string, tag: string, i: nat)
    requires tag != "" && Index(ToLower(s), tag) == i <= |s|
    ensures Index(ToLower(s[..i]), tag) == -1
  {
    assert s[..i] + s[i..] == s;
    if Index(ToLower(s[..i]), tag) != -1 {
      FoundBefore(s[..i], s[i..], tag);
    }
  }

  /** Splits a text around the first tag. */
  lemma CutAt(s: string, tag: string) returns (before: string, written: string, rest: string)
    requires tag != "" && Index(ToLower(s), tag) != -1
    ensures s == before + written + rest && ToLower(written) == tag
    ensures Index(ToLower(before), tag) == -1
    ensures rest == s[Index(ToLower(s), tag) + |tag|..]
  {
    var i := Index(ToLower(s), tag);
    before, written, rest := s[..i], s[i..i + |tag|], s[i + |tag|..];
    LowerSlice(s, i, i + |tag|);
    NotInFront(s, tag, i);
  }

  // ----- the whole extractor -----

  /** Short lines and no carriage returns: the scanner loses nothing. */
  ghost predicate Plain(s: string) {
    '\r' !in s && forall i, j :: !LongRun(s, i, j, MAX_TOKEN)
  }

  ghost predicate LongRun(s: string, i: int, j: int, n: int) {
    0 <= i <= j <= |s| && j - i >= n && '\n' !in s[i..j]
  }

  function Terminated(s: string): string {
    if s == [] || s[|s| - 1] == '\n' then s else s + "\n"
  }

  lemma PlainTail(s: string, n: nat)
    requires Plain(s) && n <= |s|
    ensures Plain(s[n..])
  {
    var t := s[n..];
    forall i, j ensures !LongRun(t, i, j, MAX_TOKEN) {
      if 0 <= i <= j <= |t| {
        assert t[i..j] == s[n + i..n + j];
        assert !LongRun(s, n + i, n + j, MAX_TOKEN);
      }
    }
  }

  lemma FirstNewline(s: string)
    ensures var i := Index(s, "\n");
            if i == -1 then '\n' !in s else s[i] == '\n' && '\n' !in s[..i]
  {
    var i := Index(s, "\n");
    forall j | 0 <= j < |s| && s[j] == '\n' ensures i != -1 && i <= j {
      assert s[j..j + 1] == "\n";
      assert OccursAt(s, "\n", j);
    }
    if i != -1 {
      assert s[i] == s[i..i + 1][0];
    }
  }

  lemma TerminatedStep(line: string, rest: string)
    ensures Terminated(line + "\n" + rest) == line + "\n" + Terminated(rest)
  {
    Regroup(line, "\n", rest, "\n");
  }

  lemma UnlinesStep(line: string, lines: seq<string>)
    ensures Unlines([line] + lines) == line + "\n" + Unlines(lines)
  {
  }

  lemma LineIsShort(s: string, i: nat)
    requires Plain(s) && i <= |s| && '\n' !in s[..i]
    ensures i < MAX_TOKEN
  {
    assert s[0..i] == s[..i];
    assert !LongRun(s, 0, i, MAX_TOKEN);
  }

  lemma LineHasNoCR(s: string, i: nat)
    requires '\r' !in s && i <= |s|
    ensures DropCR(s[..i]) == s[..i]
  {
    if i > 0 {
      assert s[..i][i - 1] == s[i - 1];
    }
  }

  lemma CutAtNewline(s: string, i: nat)
    requires i < |s| && s[i] == '\n'
    ensures s == s[..i] + "\n" + s[i + 1..]
  {
  }

  /** In a plain text the scanner's next token is the whole next line. */
  lemma NextLine(s: string, i: nat)
    requires Plain(s) && Index(s, "\n") == i
    ensures i < |s| && Lines(s) == [s[..i]] + Lines(s[i + 1..]) && s == s[..i] + "\n" + s[i + 1..]
  {
    FirstNewline(s);
    LineIsShort(s, i);
    LineHasNoCR(s, i);
    CutAtNewline(s, i);
  }

  lemma LastLine(s: string)
    requires Plain(s) && s != [] && Index(s, "\n") == -1
    ensures Lines(s) == [s] && Terminated(s) == s + "\n"
  {
    FirstNewline(s);
    assert s[..|s|] == s;
    LineIsShort(s, |s|);
    LineHasNoCR(s, |s|);
  }

  lemma {:induction false} ScannerKeepsText(s: string)
    requires Plain(s)
    ensures Unlines(Lines(s)) == Terminated(s)
    decreases |s|
  {
    if s == [] {
    } else if Index(s, "\n") == -1 {
      LastLine(s);
      assert Unlines([s]) == s + "\n" + Unlines([]);
    } else {
      var i := Index(s, "\n");
      NextLine(s, i);
      PlainTail(s, i + 1);
      ScannerKeepsText(s[i + 1..]);
      UnlinesStep(s[..i], Lines(s[i + 1..]));
      TerminatedStep(s[..i], s[i + 1..]);
    }
  }

  lemma TerminatedRender(sections: seq<Section>, tail: string) returns (tail': string)
    requires Index(ToLower(tail), START) == -1
    ensures Terminated(Render(sections, tail)) == Render(sections, tail')
    ensures Index(ToLower(tail'), START) == -1
  {
    if Terminated(Render(sections, tail)) == Render(sections, tail) {
      tail' := tail;
    } else {
      tail' := tail + "\n";
      FoundAfter(tail, "", START);
      assert tail + "\n" + "" == tail';
      RenderMore(sections, tail, "\n");
    }
  }

  lemma {:induction false} RenderMore(sections: seq<Section>, tail: string, more: string)
    ensures Render(sections, tail) + more == Render(sections, tail + more)
  {
    if sections == [] {
    } else {
      RenderMore(sections[1..], tail, more);
      var a, b := sections[0].Str(), Render(sections[1..], tail);
      assert (a + b) + more == a + (b + more);
    }
  }

  /** However the output was chunked, what was put between summary tags is what the extractor yields. */
  lemma SummaryRoundTrip(chunks: seq<string>, sections: seq<Section>, tail: string, lower: string -> string)
    requires AllPlacesKept(lower, Lines(Concat(chunks)), false)
    requires Concat(chunks) == Render(sections, tail) && Plain(Concat(chunks))
    requires forall s :: s in sections ==> s.Valid()
    requires Index(ToLower(tail), START) == -1
    ensures SummaryBy(lower, Lines(Concat(chunks)), false) == Some(Texts(sections))
  {
    var s := Concat(chunks);
    KeptPlacesSummarize(lower, Lines(s), false);
    SummaryOfRendered(s, sections, tail);
  }

  lemma SummaryOfRendered(s: string, sections: seq<Section>, tail: string)
    requires s == Render(sections, tail) && Plain(s)
    requires forall x :: x in sections ==> x.Valid()
    requires Index(ToLower(tail), START) == -1
    ensures Summary(Lines(s), false) == Texts(sections)
  {
    ScannerKeepsText(s);
    SummaryIgnoresLines(Lines(s), false);
    var tail' := TerminatedRender(sections, tail);
    ExtractRendered(sections, tail');
  }

  // ----- what the scanner makes of any output -----

  lemma FirstLine(line: string, rest: string)
    requires '\n' !in line && |line| < MAX_TOKEN
    ensures Lines(line + "\n" + rest) == [DropCR(line)] + Lines(rest)
  {
    var s := line + "\n" + rest;
    assert s[|line|..|line| + 1] == "\n";
    forall j | 0 <= j < |line| ensures !OccursAt(s, "\n", j) {
      if OccursAt(s, "\n", j) {
        NoNewlineAt(s, j);
      }
    }
    IndexIs(s, "\n", |line|);
    assert s[..|line|] == line && s[|line| + 1..] == rest;
  }

  lemma NoNewlineAt(s: string, j: nat)
    requires OccursAt(s, "\n", j)
    ensures s[j] == '\n'
  {
    assert s[j] == s[j..j + 1][0];
  }

  /** Lines that end in a newline and are not too long come out one by one, without one carriage return at
      their end; then the scanner goes on with what follows. */
  lemma {:induction false} ScannerSplits(raw: seq<string>, rest: string)
    requires forall i :: 0 <= i < |raw| ==> '\n' !in raw[i] && |raw[i]| < 65536
    ensures var lines := Lines(Unlines(raw) + rest);
            && |raw| <= |lines| && lines[|raw|..] == Lines(rest)
            && forall i :: 0 <= i < |raw| ==>
                             lines[i] == if raw[i] != "" && raw[i][|raw[i]| - 1] == '\r' then raw[i][..|raw[i]| - 1]
                                         else raw[i]
    decreases |raw|
  {
    if raw == [] {
      assert Unlines(raw) + rest == rest;
    } else {
      var more := Unlines(raw[1..]) + rest;
      ScannerSplits(raw[1..], rest);
      Regroup(raw[0] + "\n", Unlines(raw[1..]), rest, "");
      assert Unlines(raw) + rest == raw[0] + "\n" + more;
      FirstLine(raw[0], more);
      SplitsStep(raw, Lines(more), Lines(Unlines(raw) + rest), Lines(rest));
    }
  }

  lemma SplitsStep(raw: seq<string>, tail: seq<string>, lines: seq<string>, last: seq<string>)
    requires raw != [] && lines == [DropCR(raw[0])] + tail && |raw| - 1 <= |tail| && tail[|raw| - 1..] == last
    requires forall i :: 0 <= i < |raw| - 1 ==> tail[i] == DropCR(raw[1..][i])
    ensures |raw| <= |lines| && lines[|raw|..] == last && forall i :: 0 <= i < |raw| ==> lines[i] == DropCR(raw[i])
  {
    forall i | 0 <= i < |raw| ensures lines[i] == DropCR(raw[i]) {
      if i > 0 {
        assert lines[i] == tail[i - 1] && raw[1..][i - 1] == raw[i];
      }
    }
    assert lines[|raw|..] == tail[|raw| - 1..];
  }

  /** At the first line of 65536 bytes or more the scanner stops for good. */
  lemma ScannerStops(rest: string)
    requires |rest| >= 65536 && '\n' !in rest[..65536]
    ensures Lines(rest) == []
  {
    FirstNewline(rest);
  }

  /** A last line without a newline comes out as well. */
  lemma ScannerEnds(last: string)
    requires 0 < |last| < 65536 && '\n' !in last
    ensures Lines(last) == [if last[|last| - 1] == '\r' then last[..|last| - 1] else last]
  {
    FirstNewline(last);
  }

  // ----- output with carriage returns -----

  /** The text with every newline written as on Windows. */
  function Crlf(s: string): string {
    if s == [] then [] else (if s[0] == '\n' then "\r\n" else [s[0]]) + Crlf(s[1..])
  }

  lemma {:induction false} CrlfLine(line: string, rest: string)
    requires '\n' !in line
    ensures Crlf(line + rest) == line + Crlf(rest)
    decreases |line|
  {
    if line == [] {
      assert line + rest == rest;
    } else {
      assert (line + rest)[1..] == line[1..] + rest;
      CrlfLine(line[1..], rest);
      Regroup([line[0]], line[1..], Crlf(rest), "");
      assert line == [line[0]] + line[1..];
    }
  }

  lemma CrlfFirst(line: string, rest: string)
    requires '\n' !in line
    ensures Crlf(line + "\n" + rest) == (line + "\r") + "\n" + Crlf(rest)
  {
    Regroup(line, "\n", rest, "");
    CrlfLine(line, "\n" + rest);
    assert ("\n" + rest)[1..] == rest;
    assert line + ("\r\n" + Crlf(rest)) == (line + "\r") + "\n" + Crlf(rest);
  }

  /** The length from which a line has no room for a carriage return. */
  const NARROW := 65535

  /** Lines with room for a carriage return, and none in the text. */
  ghost predicate Narrow(s: string) {
    '\r' !in s && forall i, j :: !LongRun(s, i, j, NARROW)
  }

  lemma NarrowLine(s: string, i: nat)
    requires Narrow(s) && i <= |s| && '\n' !in s[..i]
    ensures i < NARROW
  {
    assert s[0..i] == s[..i];
    assert !LongRun(s, 0, i, NARROW);
  }

  lemma NarrowTail(s: string, n: nat)
    requires Narrow(s) && n <= |s|
    ensures Narrow(s[n..])
  {
    var t := s[n..];
    forall i, j ensures !LongRun(t, i, j, NARROW) {
      if 0 <= i <= j <= |t| {
        assert t[i..j] == s[n + i..n + j];
        assert !LongRun(s, n + i, n + j, NARROW);
      }
    }
  }

  lemma DropOneCR(line: string)
    requires '\r' !in line
    ensures DropCR(line + "\r") == line && DropCR(line) == line
  {
    if line != [] {
      assert line[|line| - 1] in line;
    }
  }

  /** Windows line ends make no difference to the lines. */
  lemma {:induction false} CrlfMakesNoDifference(s: string)
    requires Narrow(s)
    ensures Lines(Crlf(s)) == Lines(s)
    decreases |s|
  {
    var i := Index(s, "\n");
    FirstNewline(s);
    if i == -1 {
      CrlfLine(s, "");
      Regroup(s, "", "", "");
    } else {
      var line, rest := s[..i], s[i + 1..];
      CutAtNewline(s, i);
      NarrowLine(s, i);
      NarrowTail(s, i + 1);
      CrlfMakesNoDifference(rest);
      CrlfFirst(line, rest);
      FirstLine(line, rest);
      FirstLine(line + "\r", Crlf(rest));
      DropOneCR(line);
    }
  }

  lemma NarrowIsPlain(s: string)
    requires Narrow(s)
    ensures Plain(s)
  {
    forall i, j ensures !LongRun(s, i, j, MAX_TOKEN) {
      assert !LongRun(s, i, j, NARROW);
    }
  }

  /** The round trip for output with Windows line ends: the summary has the text with plain newlines. */
  lemma CrlfRoundTrip(chunks: seq<string>, sections: seq<Section>, tail: string, lower: string -> string)
    requires Concat(chunks) == Crlf(Render(sections, tail)) && Narrow(Render(sections, tail))
    requires AllPlacesKept(lower, Lines(Concat(chunks)), false)
    requires forall s :: s in sections ==> s.Valid()
    requires Index(ToLower(tail), START) == -1
    ensures SummaryBy(lower, Lines(Concat(chunks)), false) == Some(Texts(sections))
  {
    var s := Render(sections, tail);
    CrlfMakesNoDifference(s);
    NarrowIsPlain(s);
    KeptPlacesSummarize(lower, Lines(s), false);
    SummaryOfRendered(s, sections, tail);
  }

  /** A tag may be written in any letters: byte by byte, it is the tag or its capital. */
  lemma TagInAnyCase(written: string, inside: bool)
    ensures var tag := if inside then "</summary>" else "<summary>";
            ToLower(written) == Tag(inside) <==>
            && |written| == |tag|
            && forall i :: 0 <= i < |tag| ==>
                             || written[i] == tag[i]
                             || ('a' <= tag[i] <= 'z' && written[i] as int + 32 == tag[i] as int)
  {
    var tag := if inside then "</summary>" else "<summary>";
    assert |ToLower(written)| == |written|;
    if |written| == |tag| {
      forall i | 0 <= i < |tag|
        ensures ToLower(written)[i] == tag[i] <==>
                written[i] == tag[i] || ('a' <= tag[i] <= 'z' && written[i] as int + 32 == tag[i] as int)
      {
        TagByte(inside, i);
      }
    }
  }

  lemma TagByte(inside: bool, i: nat)
    requires i < |Tag(inside)|
    ensures Tag(inside)[i] in "</>" || 'a' <= Tag(inside)[i] <= 'z'
  {
  }

  // ----- the truncating writers -----

  function Min(a: int, b: int): int {
    if a < b then a else b
  }

  /** The first `limit` bytes. */
  function Prefix(s: string, limit: nat): string {
    s[..Min(limit, |s|)]
  }

  class CapacityBuffer {
    var data: string
    const capacity: nat
    var hasOverflow: bool

    ghost function State(): Capacity
      reads this
    {
      Capacity(data, capacity, hasOverflow)
    }

    constructor (capacity: nat)
      ensures State() == Capacity("", capacity, false)
    {
      this.capacity := capacity;
      data, hasOverflow := "", false;
    }

    method Write(p: string) returns (n: nat)
      requires |data| <= capacity
      modifies this
      ensures State() == old(State()).Write(p) && |data| <= capacity
      ensures n == |p|
    {
      var freeCapacity := capacity - |data|;
      if |p| > freeCapacity {
        data := data + p[..freeCapacity];
        hasOverflow := true;
        return |p|;
      }
      data := data + p;
      return |p|;
    }
  }

  datatype Capacity = Capacity(data: string, capacity: nat, hasOverflow: bool) {
    function Write(p: string): Capacity
      requires |data| <= capacity
    {
      Capacity(Prefix(data + p, capacity), capacity, hasOverflow || |data + p| > capacity)
    }
  }

  /** LimitedWriter. `sink` is what the underlying writer has accepted. The decoder starts afresh with every
      write, so it is a function; None of it is an error. */
  class LimitedWriter {
    var sink: string
    var limit: nat
    const decoder: Option<string -> Option<string>>

    constructor (limit: nat, decoder: Option<string -> Option<string>>)
      ensures sink == "" && this.limit == limit && this.decoder == decoder
    {
      sink, this.limit, this.decoder := "", limit, decoder;
    }

    /** What a write is about, in UTF-8. */
    function Decoded(p: string): Option<string> {
      if decoder.Some? then decoder.value(p) else Some(p)
    }

    /** `accepts` bounds how many bytes the sink takes this time; taking fewer than offered is an
        error, as io.Writer demands. */
    method Write(p: string, accepts: nat) returns (n: nat, failed: bool)
      modifies this
      ensures Decoded(p).None? ==> failed && n == 0 && sink == old(sink) && limit == old(limit)
      ensures Decoded(p).Some? ==>
                var d := Decoded(p).value;
                var offered := Min(|d|, old(limit));
                && sink == old(sink) + d[..Min(offered, accepts)]
                && limit == old(limit) - Min(offered, accepts)
                && (failed <==> accepts < offered)
                && n == if failed then accepts else |p|
      ensures !failed ==> Decoded(p).Some? &&
                          Limited(sink, limit) == Limited(old(sink), old(limit)).Write(Decoded(p).value)
    {
      var d := p;
      if decoder.Some? {
        var newP := decoder.value(p);
        if newP.None? {
          return 0, true;
        }
        d := newP.value;
      }
      var toWrite := |d|;
      if limit < toWrite {
        toWrite := limit;
      }
      if toWrite == 0 {
        return |p|, false;
      }
      var written := Min(toWrite, accepts);
      sink := sink + d[..written];
      limit := limit - written;
      if written < toWrite {
        return written, true;
      }
      return |p|, false;
    }
  }

  datatype Limited = Limited(sink: string, limit: nat) {
    /** LimitedWriter.Write on a sink that takes all it is offered. */
    function Write(p: string): Limited {
      Limited(sink + Prefix(p, limit), limit - |Prefix(p, limit)|)
    }
  }

  function WriteAllCapacity(b: Capacity, chunks: seq<string>): (r: Capacity)
    requires |b.data| <= b.capacity
    decreases |chunks|
  {
    if chunks == [] then b else WriteAllCapacity(b.Write(chunks[0]), chunks[1..])
  }

  function WriteAllLimited(w: Limited, chunks: seq<string>): (r: Limited)
    decreases |chunks|
  {
    if chunks == [] then w else WriteAllLimited(w.Write(chunks[0]), chunks[1..])
  }

  lemma {:induction false} CapacityKeepsPrefix(all: string, limit: nat, overflow: bool, chunks: seq<string>)
    requires overflow <==> |all| > limit
    ensures WriteAllCapacity(Capacity(Prefix(all, limit), limit, overflow), chunks) ==
            Capacity(Prefix(all + Concat(chunks), limit), limit, |all + Concat(chunks)| > limit)
    decreases |chunks|
  {
    if chunks == [] {
      assert all + "" == all;
    } else {
      var next := all + chunks[0];
      assert Prefix(Prefix(all, limit) + chunks[0], limit) == Prefix(next, limit);
      CapacityKeepsPrefix(next, limit, |next| > limit, chunks[1..]);
      assert next + Concat(chunks[1..]) == all + Concat(chunks);
    }
  }

  lemma {:induction false} LimitedKeepsPrefix(all: string, limit: nat, chunks: seq<string>)
    ensures var sent := Prefix(all, limit);
            WriteAllLimited(Limited(sent, limit - |sent|), chunks).sink == Prefix(all + Concat(chunks), limit)
    decreases |chunks|
  {
    if chunks == [] {
      assert all + "" == all;
    } else {
      var next, sent := all + chunks[0], Prefix(all, limit);
      assert sent + Prefix(chunks[0], limit - |sent|) == Prefix(next, limit);
      LimitedKeepsPrefix(next, limit, chunks[1..]);
      assert next + Concat(chunks[1..]) == all + Concat(chunks);
    }
  }

  /** However the output is cut into writes, both writers keep the first `limit` bytes of it, and the
      overflow flag tells whether that is not all. */
  lemma WritersAgree(limit: nat, chunks: seq<string>)
    ensures var b := WriteAllCapacity(Capacity("", limit, false), chunks);
            var w := WriteAllLimited(Limited("", limit), chunks);
            && b.data == w.sink == Prefix(Concat(chunks), limit)
            && (b.hasOverflow <==> |Concat(chunks)| > limit)
  {
    CapacityKeepsPrefix("", limit, false, chunks);
    LimitedKeepsPrefix("", limit, chunks);
    assert Prefix("", limit) == "" && "" + Concat(chunks) == Concat(chunks);
  }
}
