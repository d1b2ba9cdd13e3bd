/** The slicers of PDFReader: the header section between two bold anchors, the summary with its
    chain of fallbacks, the case-insensitive substring search, the "21c" test and the company
    name read from the section title. */
module Segmenter {
  import opened Common
  import opened BoldIndex

  /** A slice of the document text with the offsets it was cut at; end == -1 means "to the end". */
  datatype Span = Span(text: string, start: int, end: int)

  /** A summary slice, and whether the "summary before section" warning was given. */
  datatype Summary = Summary(text: string, start: int, end: int, warned: bool)

  /** The marker searched for when the index has no start anchor. */
  const SummaryMarker: string := "on the basis of this order and"

  /** The distance added to the summary start when no later bold offset exists. */
  const NoEndDistance: int := 10000000

  /** The index as ExtractBoldWords builds it: non-empty, strictly increasing, non-negative lists. */
  ghost predicate IndexShape(words: WordIndex) {
    forall w :: w in words ==>
      |words[w]| > 0
      && (forall j :: 0 <= j < |words[w]| ==> words[w][j] >= 0)
      && (forall j, k :: 0 <= j < k < |words[w]| ==> words[w][j] < words[w][k])
  }

  /** `[0]` of an offset list. */
  function FirstOffset(os: seq<int>): (r: Result<int>)
    ensures r.Success? <==> |os| > 0
  {
    if |os| == 0 then Failure(IndexError(EmptyOffsets)) else Success(os[0])
  }

  // ---------------------------------------------------------------- section

  /** get_section_portion: text[s:e].strip() with s the first offset of the start anchor and e the
      first offset of the end anchor minus one. */
  function SectionPortion(text: string, words: WordIndex, startSeq: string, endSeq: string): (r: Result<Span>)
  {
    var sk, ek := Lower(startSeq), Lower(endSeq);
    if sk !in words then Failure(KeyError(Some(sk)))
    else match FirstOffset(words[sk])
      case Failure(e) => Failure(e)
      case Success(s) =>
        if ek !in words then Failure(KeyError(Some(ek)))
        else match FirstOffset(words[ek])
          case Failure(e) => Failure(e)
          case Success(o) => Success(Span(Strip(Slice(text, s, o - 1)), s, o - 1))
  }

  /** On the built index the section fails exactly when an anchor is missing, with a KeyError naming
      the first missing one; otherwise its offsets are the anchors' first offsets (the end one less one). */
  lemma SectionOutcome(text: string, words: WordIndex, startSeq: string, endSeq: string)
    requires IndexShape(words)
    ensures var r := SectionPortion(text, words, startSeq, endSeq);
      var sk, ek := Lower(startSeq), Lower(endSeq);
      && (r.Failure? <==> sk !in words || ek !in words)
      && (sk !in words ==> r == Failure(KeyError(Some(sk))))
      && (sk in words && ek !in words ==> r == Failure(KeyError(Some(ek))))
      && (r.Success? ==> r.value.start == words[sk][0] && r.value.end == words[ek][0] - 1)
  {
  }

  /** When the anchors are in order, the section is a piece of the text between them with no
      whitespace at either end. */
  lemma SectionWithinAnchors(text: string, words: WordIndex, startSeq: string, endSeq: string)
    requires SectionPortion(text, words, startSeq, endSeq).Success?
    requires var sp := SectionPortion(text, words, startSeq, endSeq).value; 0 <= sp.start <= sp.end <= |text|
    ensures var sp := SectionPortion(text, words, startSeq, endSeq).value;
      var raw := text[sp.start..sp.end];
      var a := LeadingSpaces(raw);
      && sp.text == Strip(raw)
      && sp.start + a + |sp.text| <= sp.end
      && sp.text == text[sp.start + a..sp.start + a + |sp.text|]
      && (sp.text != [] ==> !IsSpace(sp.text[0]) && !IsSpace(sp.text[|sp.text| - 1]))
  {
    var sp := SectionPortion(text, words, startSeq, endSeq).value;
    SectionIsStripped(text, words, startSeq, endSeq);
    StripOfSlice(text, sp.start, sp.end);
    StripTrims(text[sp.start..sp.end]);
  }

  lemma SectionIsStripped(text: string, words: WordIndex, startSeq: string, endSeq: string)
    ensures var r := SectionPortion(text, words, startSeq, endSeq);
      r.Success? ==> r.value.text == Strip(Slice(text, r.value.start, r.value.end))
  {
  }

  /** strip of text[lo:hi] is a piece of text at lo plus the leading whitespace. */
  lemma StripOfSlice(text: string, lo: int, hi: int)
    requires 0 <= lo <= hi <= |text|
    ensures var raw := text[lo..hi];
      var r := Strip(Slice(text, lo, hi));
      var a := LeadingSpaces(raw);
      && r == Strip(raw)
      && lo + a + |r| <= hi
      && r == text[lo + a..lo + a + |r|]
  {
    var raw := text[lo..hi];
    assert Slice(text, lo, hi) == raw;
    var r := Strip(raw);
    var a := LeadingSpaces(raw);
    SliceOfSlice(text, lo, hi, a, a + |r|);
  }

  lemma SliceOfSlice(t: string, lo: int, hi: int, a: int, b: int)
    requires 0 <= lo <= hi <= |t| && 0 <= a <= b <= hi - lo
    ensures t[lo..hi][a..b] == t[lo + a..lo + b]
  {
    forall i | 0 <= i < b - a ensures t[lo..hi][a..b][i] == t[lo + a..lo + b][i] {
    }
  }

  /** The section's offsets need not be ordered: when the first "i." is at an offset of at least 1
      and precedes the first "in", start > end and the section is empty. */
  lemma SectionMayBeReversed(text: string)
    requires |text| >= 20
    ensures SectionPortion(text, map["in" := [10], "i." := [3]], "In", "I.") == Success(Span("", 10, 2))
  {
    assert Lower("In") == "in" && Lower("I.") == "i.";
  }

  /** A first "i." at offset 0 (a bold "I." opening the document) gives end -1, which Python's
      slice reads from the end: the section runs from the "in" offset to the last character but
      one. */
  lemma SectionWrapsAtOffsetZero(text: string)
    requires |text| >= 20
    ensures SectionPortion(text, map["in" := [5], "i." := [0]], "In", "I.") == Success(Span(Strip(text[5..|text| - 1]), 5, -1))
    ensures |text[5..|text| - 1]| == |text| - 6
  {
    assert Lower("In") == "in" && Lower("I.") == "i.";
    assert Slice(text, 5, -1) == text[5..|text| - 1];
  }

  // ---------------------------------------------------------------- summary

  /** The summary start: the start anchor's first offset, else the marker's position in the
      lower-cased text (-1 when absent). */
  function SummaryStart(text: string, words: WordIndex, startSeq: string): (r: Result<int>)
    ensures Lower(startSeq) !in words ==> r.Success? && r.value >= -1
    ensures Lower(startSeq) in words ==> (r.Failure? <==> |words[Lower(startSeq)]| == 0)
  {
    var k := Lower(startSeq);
    if k in words then FirstOffset(words[k]) else Success(Find(Lower(text), SummaryMarker))
  }

  /** The test `key not in words or words[key][-1] < start`, negated: can this anchor end the summary? */
  function AnchorUsable(words: WordIndex, key: string, start: int): (r: Result<bool>)
    ensures r.Failure? <==> key in words && |words[key]| == 0
  {
    if key !in words then Success(false)
    else if |words[key]| == 0 then Failure(IndexError(EmptyOffsets))
    else Success(words[key][|words[key]| - 1] >= start)
  }

  /** The end anchor actually used: the given one, else its plural, else None (fall back to the
      nearest bold offset). */
  function EndKey(words: WordIndex, endSeq: string, start: int): (r: Result<Option<string>>)
  {
    var k1 := Lower(endSeq);
    match AnchorUsable(words, k1, start)
    case Failure(e) => Failure(e)
    case Success(true) => Success(Some(k1))
    case Success(false) =>
      var k2 := Lower(endSeq + "s");
      match AnchorUsable(words, k2, start)
      case Failure(e) => Failure(e)
      case Success(true) => Success(Some(k2))
      case Success(false) => Success(None)
  }

  /** Key k is in the index with some offset at or after start. */
  ghost predicate HasOffsetFrom(words: WordIndex, k: string, start: int) {
    k in words && exists j :: 0 <= j < |words[k]| && words[k][j] >= start
  }

  /** On a well-formed index, testing the last offset is testing whether any offset is at or
      after start: the anchor is usable exactly when it occurs in the index at or after start. */
  lemma UsableMeans(words: WordIndex, key: string, start: int)
    requires IndexShape(words)
    ensures AnchorUsable(words, key, start) == Success(HasOffsetFrom(words, key, start))
  {
    if key in words {
      var os := words[key];
      var last := |os| - 1;
      if exists j :: 0 <= j < |os| && os[j] >= start {
        var j :| 0 <= j < |os| && os[j] >= start;
        assert j == last || os[j] < os[last];
      }
    }
  }

  /** The end anchor is the given one when it occurs at or after start, else its plural when
      that does, else None. */
  lemma EndKeyMeans(words: WordIndex, endSeq: string, start: int)
    requires IndexShape(words)
    ensures var k1, k2 := Lower(endSeq), Lower(endSeq + "s");
      EndKey(words, endSeq, start) ==
        Success(if HasOffsetFrom(words, k1, start) then Some(k1)
                else if HasOffsetFrom(words, k2, start) then Some(k2)
                else None)
  {
    UsableMeans(words, Lower(endSeq), start);
    UsableMeans(words, Lower(endSeq + "s"), start);
  }

  /** The index the scan builds has the shape the slicers rely on. */
  lemma BuiltIndexHasShape(pages: seq<seq<PdfChar>>)
    ensures IndexShape(ScanPages(pages).words)
  {
    var s := ScanPages(pages);
    IndexIsWellFormed(pages);
    forall w | w in s.words
      ensures |s.words[w]| > 0
      ensures forall j :: 0 <= j < |s.words[w]| ==> s.words[w][j] >= 0
      ensures forall j, k :: 0 <= j < k < |s.words[w]| ==> s.words[w][j] < s.words[w][k]
    {
      assert GoodOffsets(s.words[w], Flatten(pages), |s.text|);
    }
  }

  /** `while end < start: end = os[i] - 1; i += 1` from end = 0: the first offset whose
      predecessor is at least start, minus one; IndexError when the list runs out. */
  function AnchorEnd(os: seq<int>, start: int): (r: Result<int>)
    decreases |os|
  {
    if start <= 0 then Success(0)
    else if |os| == 0 then Failure(IndexError(OffsetsExhausted))
    else if os[0] - 1 >= start then Success(os[0] - 1)
    else AnchorEnd(os[1..], start)
  }

  /** e is where the fallback scan stops: the smallest offset of any key strictly above start,
      or start + 10000000 when there is none below that. */
  ghost predicate IsFallbackEnd(words: WordIndex, start: int, e: int) {
    && start < e <= start + NoEndDistance
    && (forall w, j :: w in words && 0 <= j < |words[w]| && words[w][j] > start ==> e <= words[w][j])
    && (e == start + NoEndDistance || exists w, j :: w in words && 0 <= j < |words[w]| && words[w][j] == e)
  }

  /** The return statement of get_summary_portion once start and end are known. */
  function FinishSummary(text: string, start: int, end: int, sectionStart: int, sectionEnd: int): Summary {
    if start < sectionStart then Summary(Slice(text, sectionEnd + 1, |text|), sectionEnd + 1, -1, true)
    else Summary(Slice(text, start, end), start, end, false)
  }

  /** get_summary_portion, with the section's offsets passed in. */
  method SummaryPortion(text: string, words: WordIndex, sectionStart: int, sectionEnd: int,
                        startSeq: string, endSeq: string) returns (r: Result<Summary>)
    ensures match SummaryStart(text, words, startSeq)
      case Failure(err) => r == Failure(err)
      case Success(s) =>
        match EndKey(words, endSeq, s)
        case Failure(err) => r == Failure(err)
        case Success(None) =>
          exists e :: IsFallbackEnd(words, s, e) && r == Success(FinishSummary(text, s, e, sectionStart, sectionEnd))
        case Success(Some(k)) =>
          k in words &&
          match AnchorEnd(words[k], s)
          case Failure(err) => r == Failure(err)
          case Success(e) => r == Success(FinishSummary(text, s, e, sectionStart, sectionEnd))
  {
    var sumStart: int;
    var sk := Lower(startSeq);
    if sk in words {
      if |words[sk]| == 0 {
        return Failure(IndexError(EmptyOffsets));
      }
      sumStart := words[sk][0];
    } else {
      sumStart := Find(Lower(text), SummaryMarker);
    }
    assert SummaryStart(text, words, startSeq) == Success(sumStart);

    var sumEnd := 0;
    var ending := endSeq;
    var ek := Lower(ending);
    if ek in words && |words[ek]| == 0 {
      assert EndKey(words, endSeq, sumStart) == Failure(IndexError(EmptyOffsets));
      return Failure(IndexError(EmptyOffsets));
    }
    var firstUsable := !(ek !in words || words[ek][|words[ek]| - 1] < sumStart);
    assert AnchorUsable(words, Lower(endSeq), sumStart) == Success(firstUsable);
    if !firstUsable {
      ending := ending + "s";
    }
    ek := Lower(ending);
    if ek in words && |words[ek]| == 0 {
      assert EndKey(words, endSeq, sumStart) == Failure(IndexError(EmptyOffsets));
      return Failure(IndexError(EmptyOffsets));
    }
    if ek !in words || words[ek][|words[ek]| - 1] < sumStart {
      assert EndKey(words, endSeq, sumStart) == Success(None);
      sumEnd := FallbackEnd(words, sumStart);
    } else {
      assert EndKey(words, endSeq, sumStart) == Success(Some(ek));
      var found := AnchorLoop(words[ek], sumStart);
      if found.Failure? {
        return Failure(found.error);
      }
      sumEnd := found.value;
    }

    if sumStart < sectionStart {
      return Success(Summary(Slice(text, sectionEnd + 1, |text|), sectionEnd + 1, -1, true));
    }
    return Success(Summary(Slice(text, sumStart, sumEnd), sumStart, sumEnd, false));
  }

  /** The fallback of get_summary_portion: every offset of every key is visited, and end keeps the
      smallest one above start, starting from start + 10000000. */
  method FallbackEnd(words: WordIndex, start: int) returns (e: int)
    ensures IsFallbackEnd(words, start, e)
  {
    e := start + NoEndDistance;
    var todo := words.Keys;
    while todo != {}
      invariant todo <= words.Keys
      invariant start < e <= start + NoEndDistance
      invariant forall w, j :: w in words && w !in todo && 0 <= j < |words[w]| && words[w][j] > start
                  ==> e <= words[w][j]
      invariant e == start + NoEndDistance
                || exists w, j :: w in words && 0 <= j < |words[w]| && words[w][j] == e
      decreases todo
    {
      var key :| key in todo;
      var e' := SmallestAbove(words[key], start, e);
      if e' != e {
        var m :| 0 <= m < |words[key]| && words[key][m] == e';
        assert key in words && words[key][m] == e';
      }
      e := e';
      todo := todo - {key};
    }
  }

  /** The inner loop of the fallback: the smallest offset of os above start, if below e0. */
  method SmallestAbove(os: seq<int>, start: int, e0: int) returns (e: int)
    requires start < e0
    ensures start < e <= e0
    ensures forall m :: 0 <= m < |os| && os[m] > start ==> e <= os[m]
    ensures e == e0 || exists m :: 0 <= m < |os| && os[m] == e
  {
    e := e0;
    var j := 0;
    while j < |os|
      invariant 0 <= j <= |os|
      invariant start < e <= e0
      invariant forall m :: 0 <= m < j && os[m] > start ==> e <= os[m]
      invariant e == e0 || exists m :: 0 <= m < j && os[m] == e
    {
      var index := os[j];
      if e > index > start {
        e := index;
      }
      j := j + 1;
    }
  }

  /** The anchor loop of get_summary_portion: `while end < start: end = os[i] - 1; i += 1`. */
  method AnchorLoop(os: seq<int>, start: int) returns (r: Result<int>)
    ensures r == AnchorEnd(os, start)
  {
    var e, i := 0, 0;
    while e < start
      invariant 0 <= i <= |os|
      invariant e < start ==> 0 < start
      invariant AnchorEnd(os, start) == if e >= start then Success(e) else AnchorEnd(os[i..], start)
      decreases |os| - i
    {
      if i >= |os| {
        return Failure(IndexError(OffsetsExhausted));
      }
      assert os[i..][1..] == os[i + 1..];
      e := os[i] - 1;
      i := i + 1;
    }
    return Success(e);
  }

  // ---------------------------------------------------------------- summary: properties

  /** On a positive start the anchor loop stops at the first offset strictly above start (minus one)
      and overruns the list exactly when no offset is above start. */
  lemma {:induction false} AnchorEndIsFirstAbove(os: seq<int>, start: int)
    requires start > 0
    ensures AnchorEnd(os, start).Failure? <==> forall j :: 0 <= j < |os| ==> os[j] <= start
    ensures AnchorEnd(os, start).Failure? ==> AnchorEnd(os, start).error == IndexError(OffsetsExhausted)
    ensures AnchorEnd(os, start).Success? ==>
      exists j :: 0 <= j < |os| && os[j] > start && AnchorEnd(os, start).value == os[j] - 1
        && forall i :: 0 <= i < j ==> os[i] <= start
    decreases |os|
  {
    if |os| > 0 && os[0] - 1 < start {
      AnchorEndIsFirstAbove(os[1..], start);
      if AnchorEnd(os[1..], start).Success? {
        var j :| 0 <= j < |os[1..]| && os[1..][j] > start && AnchorEnd(os[1..], start).value == os[1..][j] - 1
          && forall i :: 0 <= i < j ==> os[1..][i] <= start;
        assert os[j + 1] > start && forall i :: 0 <= i < j + 1 ==> os[i] <= start;
      } else {
        assert forall j :: 0 <= j < |os| ==> os[j] <= start by {
          forall j | 0 <= j < |os| ensures os[j] <= start {
            if j > 0 { assert os[j] == os[1..][j - 1]; }
          }
        }
      }
    }
  }

  /** On a sorted list the anchor end is one less than the smallest offset above start. */
  lemma AnchorEndOnSortedList(os: seq<int>, start: int)
    requires start > 0
    requires forall j, k :: 0 <= j < k < |os| ==> os[j] < os[k]
    requires AnchorEnd(os, start).Success?
    ensures var e := AnchorEnd(os, start).value;
      e + 1 in os && e + 1 > start && forall j :: 0 <= j < |os| && os[j] > start ==> e + 1 <= os[j]
  {
    AnchorEndIsFirstAbove(os, start);
  }

  /** When the anchor's largest offset equals the summary start, the `[-1]` test accepts the
      anchor but the while loop runs past the end of its list. */
  lemma AnchorAtStartOverruns(words: WordIndex, key: string, start: int)
    requires start > 0 && key in words && |words[key]| > 0
    requires forall j, k :: 0 <= j < k < |words[key]| ==> words[key][j] < words[key][k]
    requires words[key][|words[key]| - 1] == start
    ensures AnchorUsable(words, key, start) == Success(true)
    ensures AnchorEnd(words[key], start) == Failure(IndexError(OffsetsExhausted))
  {
    var os := words[key];
    assert forall j :: 0 <= j < |os| ==> os[j] <= start by {
      forall j | 0 <= j < |os| ensures os[j] <= start {
        if j < |os| - 1 { assert os[j] < os[|os| - 1]; }
      }
    }
    AnchorEndIsFirstAbove(os, start);
  }

  /** The fallback end does not depend on the order in which the keys are visited. */
  lemma FallbackEndIsUnique(words: WordIndex, start: int, e1: int, e2: int)
    requires IsFallbackEnd(words, start, e1) && IsFallbackEnd(words, start, e2)
    ensures e1 == e2
  {
    if e1 != start + NoEndDistance {
      var w, j :| w in words && 0 <= j < |words[w]| && words[w][j] == e1;
      assert e2 <= e1;
    }
    if e2 != start + NoEndDistance {
      var w, j :| w in words && 0 <= j < |words[w]| && words[w][j] == e2;
      assert e1 <= e2;
    }
  }

  /** With no "respondent(s)" anchor, bold offsets 100, 250 and 400 and a summary starting at 150,
      the summary ends at 250, the next bold offset. */
  method FallbackToNextBoldWord() returns (r: Result<Summary>)
    ensures r.Success? && r.value.start == 150 && r.value.end == 250 && !r.value.warned
  {
    var words := map["summary" := [150], "facts" := [100, 250, 400]];
    assert Lower("Summary") == "summary" && Lower("Respondent") == "respondent";
    assert Lower("Respondent" + "s") == "respondents";
    assert "respondent" !in words && "respondents" !in words;
    assert SummaryStart("", words, "Summary") == Success(150);
    assert EndKey(words, "Respondent", 150) == Success(None);
    forall w, j | w in words && 0 <= j < |words[w]| && words[w][j] > 150 ensures 250 <= words[w][j] {
      if w != "summary" { assert w == "facts"; }
    }
    assert words["facts"][1] == 250;
    assert IsFallbackEnd(words, 150, 250);
    r := SummaryPortion("", words, 0, 0, "Summary", "Respondent");
    ghost var e :| IsFallbackEnd(words, 150, e) && r == Success(FinishSummary("", 150, e, 0, 0));
    FallbackEndIsUnique(words, 150, e, 250);
  }

  /** With only "respondents" at 500 and a summary starting at 300, the plural anchor ends it at 499. */
  method PluralAnchorEndsSummary() returns (r: Result<Summary>)
    ensures r.Success? && r.value.start == 300 && r.value.end == 499 && !r.value.warned
  {
    var words := map["summary" := [300], "respondents" := [500]];
    assert Lower("Summary") == "summary" && Lower("Respondent") == "respondent";
    assert Lower("Respondent" + "s") == "respondents";
    assert "respondent" !in words;
    assert SummaryStart("", words, "Summary") == Success(300);
    assert AnchorUsable(words, "respondents", 300) == Success(true);
    assert EndKey(words, "Respondent", 300) == Success(Some("respondents"));
    assert AnchorEnd([500], 300) == Success(499);
    r := SummaryPortion("", words, 0, 0, "Summary", "Respondent");
  }

  /** A start at offset 0 skips the anchor's while loop, so the end stays 0, whatever the anchor's
      offsets: with the section also starting at 0 the summary is empty. */
  method SummaryAtOffsetZeroIsEmpty(text: string) returns (r: Result<Summary>)
    ensures r == Success(Summary("", 0, 0, false))
  {
    var words := map["summary" := [0], "respondent" := [15]];
    assert Lower("Summary") == "summary" && Lower("Respondent") == "respondent";
    assert SummaryStart(text, words, "Summary") == Success(0);
    assert AnchorUsable(words, "respondent", 0) == Success(true);
    assert EndKey(words, "Respondent", 0) == Success(Some("respondent"));
    assert AnchorEnd([15], 0) == Success(0);
    r := SummaryPortion(text, words, 0, 0, "Summary", "Respondent");
  }

  /** A summary anchor before the section start gives the degraded span: the text after the
      section, end -1, and the warning. */
  method SummaryBeforeSectionIsDegraded(text: string) returns (r: Result<Summary>)
    requires |text| >= 20
    ensures r == Success(Summary(text[10..], 10, -1, true))
  {
    var words := map["summary" := [3], "respondent" := [15]];
    assert Lower("Summary") == "summary" && Lower("Respondent") == "respondent";
    assert SummaryStart(text, words, "Summary") == Success(3);
    assert EndKey(words, "Respondent", 3) == Success(Some("respondent"));
    assert AnchorEnd([15], 3) == Success(14);
    assert Slice(text, 10, |text|) == text[10..];
    r := SummaryPortion(text, words, 5, 9, "Summary", "Respondent");
  }

  /** A start at offset 0 with the section starting later takes the degraded return instead. */
  method SummaryAtOffsetZeroBeforeSection(text: string) returns (r: Result<Summary>)
    requires |text| >= 20
    ensures r == Success(Summary(text[10..], 10, -1, true))
  {
    var words := map["summary" := [0], "respondent" := [15]];
    assert Lower("Summary") == "summary" && Lower("Respondent") == "respondent";
    assert SummaryStart(text, words, "Summary") == Success(0);
    assert AnchorUsable(words, "respondent", 0) == Success(true);
    assert EndKey(words, "Respondent", 0) == Success(Some("respondent"));
    assert AnchorEnd([15], 0) == Success(0);
    assert Slice(text, 10, |text|) == text[10..];
    r := SummaryPortion(text, words, 5, 9, "Summary", "Respondent");
  }

  // ---------------------------------------------------------------- small helpers

  /** find_substring: the first case-insensitive match i of `start`, and i plus the first match of
      `end` in the text from i on; when `end` starts with "Resp" and is not found, its last character
      is replaced by "s\n" and the search repeated. */
  function FindSubstring(text: string, start: string, end: string): (r: Result<(int, int)>)
  {
    var t := Lower(text);
    var i := Find(t, Lower(start));
    if i == -1 then Failure(IndexError(StartNotFound))
    else
      var j := EndSearch(t, i, end);
      if j == -1 then Failure(IndexError(EndNotFound)) else Success((i, i + j))
  }

  /** The end sequence searched on the retry. */
  function RetryEnd(end: string): string { Lower(Slice(end, 0, -1) + "s\n") }

  /** The search for `end` in the lower-cased text from the start match i on, with the retry. */
  function EndSearch(t: string, i: nat, end: string): int
    requires i <= |t|
  {
    var j0 := Find(t[i..], Lower(end));
    if j0 == -1 && Slice(end, 0, 4) == "Resp" then Find(t[i..], RetryEnd(end)) else j0
  }

  /** k is the first occurrence of p in t at or after position from. */
  predicate FirstFrom(t: string, p: string, from: int, k: int) {
    from <= k && OccursAt(t, p, k) && forall m :: from <= m < k ==> !OccursAt(t, p, m)
  }

  /** p does not occur in t at or after position from. */
  ghost predicate NoneFrom(t: string, p: string, from: int) {
    forall m :: from <= m ==> !OccursAt(t, p, m)
  }

  /** Searching the suffix t[i..] finds the first occurrence at or after i, shifted by i. */
  lemma FindInSuffix(t: string, p: string, i: nat)
    requires i <= |t|
    ensures Find(t[i..], p) == -1 <==> NoneFrom(t, p, i)
    ensures Find(t[i..], p) != -1 ==> FirstFrom(t, p, i, i + Find(t[i..], p))
  {
    FindIsFirst(t[i..], p);
    var r := Find(t[i..], p);
    if r == -1 {
      forall m | i <= m ensures !OccursAt(t, p, m) {
        OccursInSuffix(t, p, i, m - i);
      }
    } else {
      OccursInSuffix(t, p, i, r);
      forall m | i <= m < i + r ensures !OccursAt(t, p, m) {
        OccursInSuffix(t, p, i, m - i);
      }
    }
  }

  /** find_substring's start is the first match of `start`; StartNotFound exactly when there is none. */
  lemma FindSubstringStart(text: string, start: string, end: string)
    ensures var r, t, ls := FindSubstring(text, start, end), Lower(text), Lower(start);
      && (r == Failure(IndexError(StartNotFound)) <==> NoneFrom(t, ls, 0))
      && (r.Success? ==> FirstFrom(t, ls, 0, r.value.0))
  {
    FindInSuffix(Lower(text), Lower(start), 0);
    assert Lower(text)[0..] == Lower(text);
  }

  /** The first occurrence from a position is unique. */
  lemma FirstFromUnique(t: string, p: string, from: int, a: int, b: int)
    requires FirstFrom(t, p, from, a) && FirstFrom(t, p, from, b)
    ensures a == b
  {
  }

  /** The retry applies: `end` starts with "Resp" and does not occur from i on. */
  ghost predicate Retries(t: string, end: string, i: int) {
    Slice(end, 0, 4) == "Resp" && NoneFrom(t, Lower(end), i)
  }

  /** find_substring's end is the first match of `end` from the start on or, for a "Resp..." end
      that does not occur there, the first match of the retry sequence. */
  lemma FindSubstringEnd(text: string, start: string, end: string)
    ensures var r, t := FindSubstring(text, start, end), Lower(text);
      r.Success? ==>
        || FirstFrom(t, Lower(end), r.value.0, r.value.1)
        || (Retries(t, end, r.value.0) && FirstFrom(t, RetryEnd(end), r.value.0, r.value.1))
  {
    var t := Lower(text);
    var i := Find(t, Lower(start));
    if i != -1 {
      var j := EndSearch(t, i, end);
      assert FindSubstring(text, start, end) == if j == -1 then Failure(IndexError(EndNotFound)) else Success((i, i + j));
      EndSearchIsFirst(t, i, end);
    }
  }

  /** The end search finds the first match of `end`, or the first match of the retry sequence. */
  lemma EndSearchIsFirst(t: string, i: nat, end: string)
    requires i <= |t|
    ensures var j := EndSearch(t, i, end);
      && (j == -1 <==> NoneFrom(t, Lower(end), i) && (Slice(end, 0, 4) == "Resp" ==> NoneFrom(t, RetryEnd(end), i)))
      && (j != -1 ==>
          || FirstFrom(t, Lower(end), i, i + j)
          || (Retries(t, end, i) && FirstFrom(t, RetryEnd(end), i, i + j)))
  {
    FindInSuffix(t, Lower(end), i);
    FindInSuffix(t, RetryEnd(end), i);
  }

  /** Once the start occurs first at i, find_substring raises EndNotFound exactly when neither
      `end` nor, where it applies, the retry sequence occurs from i on. */
  lemma FindSubstringEndMissing(text: string, start: string, end: string, i: int)
    requires FirstFrom(Lower(text), Lower(start), 0, i)
    ensures FindSubstring(text, start, end) == Failure(IndexError(EndNotFound)) <==>
      NoneFrom(Lower(text), Lower(end), i)
        && (Slice(end, 0, 4) == "Resp" ==> NoneFrom(Lower(text), RetryEnd(end), i))
  {
    var t := Lower(text);
    FindInSuffix(t, Lower(start), 0);
    assert t[0..] == t;
    FirstFromUnique(t, Lower(start), 0, i, Find(t, Lower(start)));
    EndSearchIsFirst(t, i, end);
  }

  /** check_21c: the section mentions "21c" in any letter case. */
  function Check21c(section: string): (b: bool)
    ensures b <==> exists m :: OccursAt(Lower(section), "21c", m)
  {
    Contains(Lower(section), "21c")
  }

  /** The corporate suffixes looked for in the title. */
  const Indicators: seq<string> := ["LLP", "LLC", "CORP", "INC"]

  /** `any(x in s.upper() for x in comp_indicators)`. */
  predicate HasIndicator(s: string) {
    exists x :: x in Indicators && Contains(Upper(s), x)
  }

  /** find_substring(section, "In the Matter of", "Respondent"), then the title between the two
      matches, stripped. */
  function MatterTitle(section: string): Result<string> {
    match FindSubstring(section, "In the Matter of", "Respondent")
    case Failure(e) => Failure(e)
    case Success(found) => Success(Strip(Slice(section, found.0 + 16, found.1)))
  }

  /** The first part holding a corporate suffix: j is its index. */
  predicate FirstWithIndicator(parts: seq<string>, j: int) {
    0 <= j < |parts| && HasIndicator(parts[j]) && forall i :: 0 <= i < j ==> !HasIndicator(parts[i])
  }

  /** What get_company_name_from_section answers for a title: None exactly when the title has no
      corporate suffix or, having "and"s, none of its parts has one; the title itself when it has
      no "and"; otherwise the first part with a suffix. */
  ghost predicate IsCompanyNameOf(title: string, r: Option<string>) {
    var parts := Split(title, "and");
    && (r.None? <==> !HasIndicator(title) || (|parts| > 1 && forall j :: 0 <= j < |parts| ==> !HasIndicator(parts[j])))
    && (r.Some? && |parts| == 1 ==> r.value == title)
    && (r.Some? && |parts| > 1 ==> exists j :: FirstWithIndicator(parts, j) && r.value == parts[j])
  }

  /** get_company_name_from_section: the title between "In the Matter of" and "Respondent", read
      as IsCompanyNameOf describes; the errors of find_substring propagate. */
  method CompanyNameFromSection(section: string) returns (r: Result<Option<string>>)
    ensures MatterTitle(section).Failure? ==> r == Failure(MatterTitle(section).error)
    ensures MatterTitle(section).Success? ==> r.Success? && IsCompanyNameOf(MatterTitle(section).value, r.value)
  {
    var found := MatterTitle(section);
    if found.Failure? {
      return Failure(found.error);
    }
    var name := CompanyNameOfTitle(found.value);
    return Success(name);
  }

  /** The part of get_company_name_from_section after the title is cut out. */
  method CompanyNameOfTitle(title: string) returns (r: Option<string>)
    ensures IsCompanyNameOf(title, r)
  {
    if !HasIndicator(title) {
      return None;
    }
    var parts := Split(title, "and");
    if |parts| == 1 {
      return Some(title);
    }
    var j := 0;
    while j < |parts|
      invariant 0 <= j <= |parts|
      invariant forall i :: 0 <= i < j ==> !HasIndicator(parts[i])
    {
      if HasIndicator(parts[j]) {
        assert FirstWithIndicator(parts, j);
        return Some(parts[j]);
      }
      j := j + 1;
    }
    return None;
  }
}
