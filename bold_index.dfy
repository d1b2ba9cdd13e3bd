/** The bold-word index built while the PDF text is concatenated (PDFReader.extract_pdf_from_url):
    one pass over the characters of every page that records, for each lower-cased bold word,
    the offsets in the full text at which it starts. */
module BoldIndex {
  import opened Common

  /** One character of a page, as the PDF library reports it: its text and whether
      its font name contains "bold". */
  datatype PdfChar = PdfChar(c: char, bold: bool)

  type WordIndex = map<string, seq<int>>

  /** Bold words contained in this literal get a trailing period (section numerals "I.", "IV.", ...). */
  const NumeralLexicon: string := "xxiiixxivxxviiixxx"

  /** The punctuation and digits that end a bold word. */
  const BreakChars: string := ".,1234567890'\""

  predicate IsBreak(c: char) { IsSpace(c) || c in BreakChars }

  /** Whitespace, or bold punctuation/digit: the character that closes a pending bold word. */
  predicate IsFlush(ch: PdfChar) { (ch.bold || IsSpace(ch.c)) && IsBreak(ch.c) }

  /** A bold character that extends the pending bold word. */
  predicate IsBoldLetter(ch: PdfChar) { ch.bold && !IsBreak(ch.c) }

  /** The key under which a flushed bold word is stored: a raw substring test against the numeral lexicon. */
  function IndexedForm(w: string): string {
    if Contains(NumeralLexicon, w) then w + "." else w
  }

  /** The loop's accumulators: all_text, bold_words, index, start and bold_word. */
  datatype ScanState = ScanState(text: string, words: WordIndex, index: int, start: int, word: string)

  const Initial: ScanState := ScanState("", map[], 0, 0, "")

  /** Append offset o to the list of key w, creating the list when w is new. */
  function Record(words: WordIndex, w: string, o: int): WordIndex {
    words[w := if w in words then words[w] + [o] else [o]]
  }

  /** One iteration of the per-character loop. */
  function Step(s: ScanState, ch: PdfChar): ScanState {
    var text := s.text + [ch.c];
    if IsFlush(ch) then
      var words := if s.index - s.start > 0 && |s.word| > 0 then Record(s.words, IndexedForm(s.word), s.start) else s.words;
      ScanState(text, words, s.index + 1, s.index + 1, "")
    else if IsBoldLetter(ch) then
      ScanState(text, s.words, s.index + 1, s.start, s.word + [LowerChar(ch.c)])
    else
      ScanState(text, s.words, s.index + 1, s.index + 1, s.word)
  }

  /** The pending bold word is reset at the top of every page; nothing else is. */
  function BeginPage(s: ScanState): ScanState { s.(word := "") }

  function ScanPage(s: ScanState, page: seq<PdfChar>): ScanState
    decreases |page|
  {
    if page == [] then s else Step(ScanPage(s, page[..|page| - 1]), page[|page| - 1])
  }

  /** The state after the loop has run over all the given pages. */
  function ScanPages(pages: seq<seq<PdfChar>>): ScanState
    decreases |pages|
  {
    if pages == [] then Initial
    else ScanPage(BeginPage(ScanPages(pages[..|pages| - 1])), pages[|pages| - 1])
  }

  /** All characters of all pages, in reading order. */
  function Flatten(pages: seq<seq<PdfChar>>): seq<PdfChar>
    decreases |pages|
  {
    if pages == [] then [] else Flatten(pages[..|pages| - 1]) + pages[|pages| - 1]
  }

  // ---------------------------------------------------------------- invariant

  /** Offset o starts a run of bold letters that a flush character closes. */
  ghost predicate Anchored(chars: seq<PdfChar>, o: int) {
    exists f :: 0 <= o < f < |chars| && IsFlush(chars[f]) && forall i :: o <= i < f ==> IsBoldLetter(chars[i])
  }

  /** The offsets of one key: non-empty, strictly increasing, below `bound`, each anchored. */
  ghost predicate GoodOffsets(os: seq<int>, chars: seq<PdfChar>, bound: int) {
    && |os| > 0
    && (forall j :: 0 <= j < |os| ==> 0 <= os[j] < bound && Anchored(chars, os[j]))
    && (forall j, k :: 0 <= j < k < |os| ==> os[j] < os[k])
  }

  /** What the accumulators satisfy after the loop has consumed `chars`. */
  ghost predicate Wf(s: ScanState, chars: seq<PdfChar>) {
    && s.index == |chars| == |s.text|
    && (forall i :: 0 <= i < |chars| ==> s.text[i] == chars[i].c)
    && 0 <= s.start <= s.index
    && (forall i :: s.start <= i < s.index ==> IsBoldLetter(chars[i]))
    && (forall w :: w in s.words ==> w != "" && GoodOffsets(s.words[w], chars, s.start))
  }

  lemma AnchoredExtend(chars: seq<PdfChar>, ch: PdfChar, o: int)
    requires Anchored(chars, o)
    ensures Anchored(chars + [ch], o)
  {
    var f :| 0 <= o < f < |chars| && IsFlush(chars[f]) && forall i :: o <= i < f ==> IsBoldLetter(chars[i]);
    var cs := chars + [ch];
    assert IsFlush(cs[f]) && forall i :: o <= i < f ==> IsBoldLetter(cs[i]);
  }

  lemma GoodOffsetsExtend(os: seq<int>, chars: seq<PdfChar>, ch: PdfChar, bound: int, bound': int)
    requires GoodOffsets(os, chars, bound) && bound <= bound'
    ensures GoodOffsets(os, chars + [ch], bound')
  {
    forall j | 0 <= j < |os| ensures Anchored(chars + [ch], os[j]) {
      AnchoredExtend(chars, ch, os[j]);
    }
  }

  lemma {:induction false} StepWf(s: ScanState, chars: seq<PdfChar>, ch: PdfChar)
    requires Wf(s, chars)
    ensures Wf(Step(s, ch), chars + [ch])
  {
    var cs := chars + [ch];
    var t := Step(s, ch);
    assert forall i :: 0 <= i < |chars| ==> cs[i] == chars[i];
    forall w | w in s.words ensures GoodOffsets(s.words[w], cs, t.start) {
      GoodOffsetsExtend(s.words[w], chars, ch, s.start, t.start);
    }
    if IsFlush(ch) && s.index - s.start > 0 && |s.word| > 0 {
      var key := IndexedForm(s.word);
      assert Anchored(cs, s.start) by {
        assert s.start < s.index < |cs| && IsFlush(cs[s.index]);
        assert forall i :: s.start <= i < s.index ==> IsBoldLetter(cs[i]);
      }
      var os := if key in s.words then s.words[key] + [s.start] else [s.start];
      assert t.words == s.words[key := os];
      assert GoodOffsets(os, cs, t.start);
    }
  }

  lemma {:induction false} ScanPageWf(s: ScanState, chars: seq<PdfChar>, page: seq<PdfChar>)
    requires Wf(s, chars)
    ensures Wf(ScanPage(s, page), chars + page)
    decreases |page|
  {
    if page != [] {
      var init := page[..|page| - 1];
      ScanPageWf(s, chars, init);
      StepWf(ScanPage(s, init), chars + init, page[|page| - 1]);
      assert chars + init + [page[|page| - 1]] == chars + page;
    }
  }

  lemma {:induction false} ScanPagesWf(pages: seq<seq<PdfChar>>)
    ensures Wf(ScanPages(pages), Flatten(pages))
    decreases |pages|
  {
    if pages != [] {
      var init := pages[..|pages| - 1];
      ScanPagesWf(init);
      ScanPageWf(BeginPage(ScanPages(init)), Flatten(init), pages[|pages| - 1]);
    }
  }

  /** Every recorded offset lies inside the text, each key's offsets strictly increase (so the
      last one is the largest), and the characters from an offset up to the character that flushed
      the word are all bold letters. */
  lemma IndexIsWellFormed(pages: seq<seq<PdfChar>>)
    ensures var s := ScanPages(pages);
      && |s.text| == |Flatten(pages)|
      && (forall i :: 0 <= i < |s.text| ==> s.text[i] == Flatten(pages)[i].c)
      && forall w :: w in s.words ==> w != "" && GoodOffsets(s.words[w], Flatten(pages), |s.text|)
  {
    var s := ScanPages(pages);
    ScanPagesWf(pages);
    forall w | w in s.words ensures GoodOffsets(s.words[w], Flatten(pages), |s.text|) {
      assert GoodOffsets(s.words[w], Flatten(pages), s.start);
    }
  }

  // ---------------------------------------------------------------- spelling of the keys

  /** a is a suffix of b. */
  predicate IsSuffix(a: string, b: string) {
    |a| <= |b| && b[|b| - |a|..] == a
  }

  /** One of a and b ends the other. */
  predicate SuffixEither(a: string, b: string) {
    IsSuffix(a, b) || IsSuffix(b, a)
  }

  /** A key without the numeral period. */
  function Stem(w: string): string {
    if |w| > 0 && w[|w| - 1] == '.' then w[..|w| - 1] else w
  }

  /** The lower-cased characters chars[o..f]. */
  function LowerRun(chars: seq<PdfChar>, o: int, f: int): (r: string)
    requires 0 <= o <= f <= |chars|
    ensures |r| == f - o && forall i :: 0 <= i < f - o ==> r[i] == LowerChar(chars[o + i].c)
  {
    seq(f - o, i requires 0 <= i < f - o => LowerChar(chars[o + i].c))
  }

  /** Key w is spelled at offset o: the bold letters from o up to the flush character at f,
      lower-cased, and w less its numeral period end one another. */
  ghost predicate SpelledAt(chars: seq<PdfChar>, o: int, w: string) {
    exists f :: 0 <= o < f < |chars| && IsFlush(chars[f])
      && (forall i :: o <= i < f ==> IsBoldLetter(chars[i]))
      && SuffixEither(Stem(w), LowerRun(chars, o, f))
  }

  /** The spelling invariant of the scan: the characters since start are bold letters; the
      pending word has no period and ends, or is ended by, their lower-cased run; every recorded
      offset spells its key. */
  ghost predicate Spelled(s: ScanState, chars: seq<PdfChar>) {
    && s.index == |chars|
    && 0 <= s.start <= |chars|
    && (forall i :: s.start <= i < |chars| ==> IsBoldLetter(chars[i]))
    && '.' !in s.word
    && SuffixEither(s.word, LowerRun(chars, s.start, |chars|))
    && forall w, j :: w in s.words && 0 <= j < |s.words[w]| ==> SpelledAt(chars, s.words[w][j], w)
  }

  lemma SuffixSnoc(a: string, b: string, x: char)
    requires SuffixEither(a, b)
    ensures SuffixEither(a + [x], b + [x])
  {
    if IsSuffix(a, b) {
      assert (b + [x])[|b + [x]| - |a + [x]|..] == b[|b| - |a|..] + [x];
    } else {
      assert (a + [x])[|a + [x]| - |b + [x]|..] == a[|a| - |b|..] + [x];
    }
  }

  lemma LowerRunExtend(chars: seq<PdfChar>, ch: PdfChar, o: int, f: int)
    requires 0 <= o <= f <= |chars|
    ensures LowerRun(chars + [ch], o, f) == LowerRun(chars, o, f)
  {
  }

  lemma LowerRunSnoc(chars: seq<PdfChar>, ch: PdfChar, o: int)
    requires 0 <= o <= |chars|
    ensures LowerRun(chars + [ch], o, |chars| + 1) == LowerRun(chars, o, |chars|) + [LowerChar(ch.c)]
  {
  }

  lemma SpelledAtExtend(chars: seq<PdfChar>, ch: PdfChar, o: int, w: string)
    requires SpelledAt(chars, o, w)
    ensures SpelledAt(chars + [ch], o, w)
  {
    var f :| 0 <= o < f < |chars| && IsFlush(chars[f])
      && (forall i :: o <= i < f ==> IsBoldLetter(chars[i]))
      && SuffixEither(Stem(w), LowerRun(chars, o, f));
    var cs := chars + [ch];
    LowerRunExtend(chars, ch, o, f);
    assert IsFlush(cs[f]) && forall i :: o <= i < f ==> IsBoldLetter(cs[i]);
  }

  /** The stored key, less its numeral period, is the word. */
  lemma StemOfIndexedForm(w: string)
    requires '.' !in w
    ensures Stem(IndexedForm(w)) == w
  {
    if Contains(NumeralLexicon, w) {
      assert (w + ".")[..|w|] == w;
    } else if |w| > 0 {
      assert w[|w| - 1] in w;
    }
  }

  /** A bold letter lower-cases to something other than a period. */
  lemma LetterIsNoPeriod(ch: PdfChar)
    requires IsBoldLetter(ch)
    ensures LowerChar(ch.c) != '.'
  {
    assert ch.c != '.' by { assert BreakChars[0] == '.'; }
  }

  lemma {:induction false} StepSpelled(s: ScanState, chars: seq<PdfChar>, ch: PdfChar)
    requires Spelled(s, chars)
    ensures Spelled(Step(s, ch), chars + [ch])
  {
    var cs := chars + [ch];
    var t := Step(s, ch);
    forall w, j | w in s.words && 0 <= j < |s.words[w]| ensures SpelledAt(cs, s.words[w][j], w) {
      SpelledAtExtend(chars, ch, s.words[w][j], w);
    }
    if IsFlush(ch) {
      assert LowerRun(cs, t.start, |cs|) == [];
      if s.index - s.start > 0 && |s.word| > 0 {
        var key := IndexedForm(s.word);
        StemOfIndexedForm(s.word);
        LowerRunExtend(chars, ch, s.start, |chars|);
        assert SpelledAt(cs, s.start, key) by {
          assert s.start < |chars| < |cs| && IsFlush(cs[|chars|]);
          assert forall i :: s.start <= i < |chars| ==> IsBoldLetter(cs[i]);
          assert SuffixEither(Stem(key), LowerRun(cs, s.start, |chars|));
        }
        var os := if key in s.words then s.words[key] + [s.start] else [s.start];
        assert t.words == s.words[key := os];
        forall w, j | w in t.words && 0 <= j < |t.words[w]| ensures SpelledAt(cs, t.words[w][j], w) {
          if w == key && j == |os| - 1 {
          } else if w == key {
            assert t.words[w][j] == s.words[w][j];
          }
        }
      }
    } else if IsBoldLetter(ch) {
      LowerRunSnoc(chars, ch, s.start);
      SuffixSnoc(s.word, LowerRun(chars, s.start, |chars|), LowerChar(ch.c));
      LetterIsNoPeriod(ch);
    } else {
      assert LowerRun(cs, t.start, |cs|) == [];
      assert IsSuffix([], s.word);
    }
  }

  lemma {:induction false} ScanPageSpelled(s: ScanState, chars: seq<PdfChar>, page: seq<PdfChar>)
    requires Spelled(s, chars)
    ensures Spelled(ScanPage(s, page), chars + page)
    decreases |page|
  {
    if page != [] {
      var init, ch := page[..|page| - 1], page[|page| - 1];
      var mid := ScanPage(s, init);
      ScanPageSpelled(s, chars, init);
      StepSpelled(mid, chars + init, ch);
      assert ScanPage(s, page) == Step(mid, ch);
      assert chars + init + [ch] == chars + page;
    } else {
      assert chars + page == chars;
    }
  }

  lemma {:induction false} ScanPagesSpelled(pages: seq<seq<PdfChar>>)
    ensures Spelled(ScanPages(pages), Flatten(pages))
    decreases |pages|
  {
    if pages != [] {
      var init := pages[..|pages| - 1];
      ScanPagesSpelled(init);
      var b := BeginPage(ScanPages(init));
      assert IsSuffix(b.word, LowerRun(Flatten(init), b.start, |Flatten(init)|));
      ScanPageSpelled(b, Flatten(init), pages[|pages| - 1]);
    } else {
      assert LowerRun([], 0, 0) == [];
    }
  }

  /** The scan's text lower-cased over o..f is the run of lower-cased characters. */
  lemma LowerOfText(text: string, chars: seq<PdfChar>, o: int, f: int)
    requires |text| == |chars| && 0 <= o <= f <= |chars|
    requires forall i :: 0 <= i < |chars| ==> text[i] == chars[i].c
    ensures Lower(text[o..f]) == LowerRun(chars, o, f)
  {
  }

  /** Offset o of text opens a run of bold letters closed by a flush character at f, and key w
      less its numeral period and the lower-cased text[o:f] end one another. */
  ghost predicate SpelledInText(text: string, chars: seq<PdfChar>, o: int, w: string) {
    exists f :: 0 <= o < f < |text| && f < |chars| && IsFlush(chars[f])
      && (forall i :: o <= i < f ==> IsBoldLetter(chars[i]))
      && SuffixEither(Stem(w), Lower(text[o..f]))
  }

  /** Which word a key is: every offset of every key spells that key in all_text. The key can be
      the longer one (bold letters before a plain character stay in the word, see
      PlainCharacterKeepsPendingWord) or the shorter one (start is not reset at a page break, see
      WordAcrossPageBreak). */
  lemma KeysAreSpelled(pages: seq<seq<PdfChar>>)
    ensures var s := ScanPages(pages);
      forall w, j :: w in s.words && 0 <= j < |s.words[w]| ==> SpelledInText(s.text, Flatten(pages), s.words[w][j], w)
  {
    var s := ScanPages(pages);
    var chars := Flatten(pages);
    ScanPagesWf(pages);
    ScanPagesSpelled(pages);
    forall w, j | w in s.words && 0 <= j < |s.words[w]| ensures SpelledInText(s.text, chars, s.words[w][j], w) {
      var o := s.words[w][j];
      var f :| 0 <= o < f < |chars| && IsFlush(chars[f])
        && (forall i :: o <= i < f ==> IsBoldLetter(chars[i]))
        && SuffixEither(Stem(w), LowerRun(chars, o, f));
      LowerOfText(s.text, chars, o, f);
    }
  }

  // ---------------------------------------------------------------- the loop

  /** The character loop of extract_pdf_from_url, once the PDF has been opened:
      returns the concatenated text and the bold-word index. */
  method ExtractBoldWords(pages: seq<seq<PdfChar>>) returns (allText: string, boldWords: WordIndex)
    ensures allText == ScanPages(pages).text && boldWords == ScanPages(pages).words
    ensures |allText| == |Flatten(pages)| && forall i :: 0 <= i < |allText| ==> allText[i] == Flatten(pages)[i].c
    ensures forall w :: w in boldWords ==> w != "" && GoodOffsets(boldWords[w], Flatten(pages), |allText|)
  {
    allText, boldWords := "", map[];
    var index, start := 0, 0;
    var p := 0;
    while p < |pages|
      invariant 0 <= p <= |pages|
      invariant var s := ScanPages(pages[..p]);
        allText == s.text && boldWords == s.words && index == s.index && start == s.start
    {
      var page := pages[p];
      ghost var before := BeginPage(ScanPages(pages[..p]));
      var boldWord := "";
      var q := 0;
      while q < |page|
        invariant 0 <= q <= |page|
        invariant ScanState(allText, boldWords, index, start, boldWord) == ScanPage(before, page[..q])
      {
        var ch := page[q];
        allText := allText + [ch.c];
        if ch.bold || IsSpace(ch.c) {
          if IsSpace(ch.c) || ch.c in BreakChars {
            if index - start > 0 && |boldWord| > 0 {
              if Contains(NumeralLexicon, boldWord) {
                boldWord := boldWord + ".";
              }
              if boldWord !in boldWords {
                boldWords := boldWords[boldWord := [start]];
              } else {
                boldWords := boldWords[boldWord := boldWords[boldWord] + [start]];
              }
            }
            boldWord := "";
            start := index + 1;
          } else {
            boldWord := boldWord + [LowerChar(ch.c)];
          }
        } else {
          start := index + 1;
        }
        index := index + 1;
        assert page[..q + 1][..q] == page[..q];
        q := q + 1;
      }
      assert page[..q] == page;
      assert pages[..p + 1][..p] == pages[..p];
      p := p + 1;
    }
    assert pages[..p] == pages;
    IndexIsWellFormed(pages);
  }

  // ---------------------------------------------------------------- consequences

  lemma ScanOnePage(page: seq<PdfChar>)
    ensures ScanPages([page]) == ScanPage(BeginPage(Initial), page)
  {
    assert [page][..0] == [];
  }

  /** A word containing a letter that the lexicon lacks gets no period. */
  lemma NotInLexicon(w: string, c: char)
    requires c in w && c !in NumeralLexicon
    ensures IndexedForm(w) == w
  {
    assert forall m :: !OccursAt(NumeralLexicon, w, m);
  }

  /** A bold "I." is indexed under "i."; "in" keeps its form. */
  lemma SectionNumeralGetsPeriod()
    ensures ScanPages([[PdfChar('I', true), PdfChar('.', true)]]).words == map["i." := [0]]
    ensures IndexedForm("in") == "in"
  {
    NotInLexicon("in", 'n');
    var a, b := PdfChar('I', true), PdfChar('.', true);
    FirstStepOnI();
    StepOnPeriod();
    ScanTwo(a, b);
  }

  lemma FirstStepOnI()
    ensures Step(BeginPage(Initial), PdfChar('I', true)) == ScanState("I", map[], 1, 0, "i")
  {
    assert IsBoldLetter(PdfChar('I', true)) && LowerChar('I') == 'i';
  }

  lemma StepOnPeriod()
    ensures Step(ScanState("I", map[], 1, 0, "i"), PdfChar('.', true)).words == map["i." := [0]]
  {
    assert IsFlush(PdfChar('.', true));
    assert IndexedForm("i") == "i." by { assert OccursAt(NumeralLexicon, "i", 2); }
  }

  /** A one-page, two-character document is two steps from the page start. */
  lemma ScanTwo(a: PdfChar, b: PdfChar)
    ensures ScanPages([[a, b]]) == Step(Step(BeginPage(Initial), a), b)
  {
    var s0 := BeginPage(Initial);
    ScanOnePage([a, b]);
    assert [a, b][..1] == [a] && [a][..0] == [];
    assert ScanPage(s0, [a]) == Step(ScanPage(s0, []), a);
    assert ScanPage(s0, [a, b]) == Step(ScanPage(s0, [a]), b);
  }

  /** A bold "IV" closed by a space is indexed under "iv.". */
  lemma LongerNumeralGetsPeriod()
    ensures ScanPages([[PdfChar('I', true), PdfChar('V', true), PdfChar(' ', false)]]).words == map["iv." := [0]]
  {
    var a, c, sp := PdfChar('I', true), PdfChar('V', true), PdfChar(' ', false);
    FirstStepOnI();
    StepOnV();
    StepOnSpaceAfterIV();
    ScanThree(a, c, sp);
  }

  lemma StepOnV()
    ensures Step(ScanState("I", map[], 1, 0, "i"), PdfChar('V', true)) == ScanState("IV", map[], 2, 0, "iv")
  {
    assert IsBoldLetter(PdfChar('V', true)) && LowerChar('V') == 'v';
  }

  lemma StepOnSpaceAfterIV()
    ensures Step(ScanState("IV", map[], 2, 0, "iv"), PdfChar(' ', false)).words == map["iv." := [0]]
  {
    assert IsFlush(PdfChar(' ', false));
    assert IndexedForm("iv") == "iv." by { assert OccursAt(NumeralLexicon, "iv", 7); }
  }

  /** A one-page, three-character document is three steps from the page start. */
  lemma ScanThree(a: PdfChar, b: PdfChar, c: PdfChar)
    ensures ScanPages([[a, b, c]]) == Step(Step(Step(BeginPage(Initial), a), b), c)
  {
    var s0 := BeginPage(Initial);
    ScanOnePage([a, b, c]);
    assert [a, b, c][..2] == [a, b] && [a, b][..1] == [a] && [a][..0] == [];
    assert ScanPage(s0, [a]) == Step(ScanPage(s0, []), a);
    assert ScanPage(s0, [a, b]) == Step(ScanPage(s0, [a]), b);
    assert ScanPage(s0, [a, b, c]) == Step(ScanPage(s0, [a, b]), c);
  }

  /** The lexicon test is raw substring containment: "ivxx" gets a period although it is no numeral,
      while the numeral "xl" does not. */
  lemma NumeralTestIsSubstring()
    ensures IndexedForm("ivxx") == "ivxx."
    ensures IndexedForm("xl") == "xl"
  {
    assert OccursAt(NumeralLexicon, "ivxx", 7);
    NotInLexicon("xl", 'l');
  }

  /** A bold word still pending at the end of a page is dropped: bold_word is reset per page. */
  lemma PendingWordDroppedAtPageEnd()
    ensures ScanPages([[PdfChar('A', true)], [PdfChar(' ', false)]]).words == map[]
    ensures ScanPages([[PdfChar('A', true), PdfChar(' ', false)]]).words == map["a" := [0]]
  {
    var a, sp := PdfChar('A', true), PdfChar(' ', false);
    FirstStepOnA();
    assert Step(ScanState("A", map[], 1, 0, ""), sp).words == map[] by {
      assert IsFlush(sp);
    }
    StepOnSpaceAfterA();
    ScanOneThenOne(a, sp);
    ScanTwo(a, sp);
  }

  /** start is not reset at a page break: a bold "A" ending one page and a bold "B" opening the
      next are indexed as "b" at the offset of the "A". */
  lemma WordAcrossPageBreak()
    ensures ScanPages([[PdfChar('A', true)], [PdfChar('B', true), PdfChar(' ', false)]]).words == map["b" := [0]]
  {
    var a, b, sp := PdfChar('A', true), PdfChar('B', true), PdfChar(' ', false);
    FirstStepOnA();
    assert Step(ScanState("A", map[], 1, 0, ""), b) == ScanState("AB", map[], 2, 0, "b") by {
      assert IsBoldLetter(b) && LowerChar('B') == 'b';
    }
    assert Step(ScanState("AB", map[], 2, 0, "b"), sp).words == map["b" := [0]] by {
      assert IsFlush(sp);
      NotInLexicon("b", 'b');
    }
    ScanOneThenTwo(a, b, sp);
  }

  lemma ScanOneThenTwo(a: PdfChar, b: PdfChar, c: PdfChar)
    ensures ScanPages([[a], [b, c]]) == Step(Step(BeginPage(Step(BeginPage(Initial), a)), b), c)
  {
    var s0 := BeginPage(Initial);
    assert [[a], [b, c]][..1] == [[a]] && [[a]][..0] == [];
    assert ScanPages([[a]]) == ScanPage(s0, [a]);
    assert [a][..0] == [] && [b, c][..1] == [b] && [b][..0] == [];
    assert ScanPage(s0, [a]) == Step(ScanPage(s0, []), a);
    var s1 := BeginPage(ScanPage(s0, [a]));
    assert ScanPage(s1, [b]) == Step(ScanPage(s1, []), b);
    assert ScanPage(s1, [b, c]) == Step(ScanPage(s1, [b]), c);
  }

  lemma FirstStepOnA()
    ensures Step(BeginPage(Initial), PdfChar('A', true)) == ScanState("A", map[], 1, 0, "a")
  {
    assert IsBoldLetter(PdfChar('A', true)) && LowerChar('A') == 'a';
  }

  lemma StepOnSpaceAfterA()
    ensures Step(ScanState("A", map[], 1, 0, "a"), PdfChar(' ', false)).words == map["a" := [0]]
  {
    assert IsFlush(PdfChar(' ', false));
    NotInLexicon("a", 'a');
  }

  /** Two one-character pages: the pending word is reset between them. */
  lemma ScanOneThenOne(a: PdfChar, b: PdfChar)
    ensures ScanPages([[a], [b]]) == Step(BeginPage(Step(BeginPage(Initial), a)), b)
  {
    var s0 := BeginPage(Initial);
    assert [[a], [b]][..1] == [[a]] && [[a]][..0] == [];
    assert ScanPages([[a]]) == ScanPage(s0, [a]);
    assert [a][..0] == [] && [b][..0] == [];
    assert ScanPage(s0, [a]) == Step(ScanPage(s0, []), a);
    var s1 := BeginPage(ScanPage(s0, [a]));
    assert ScanPage(s1, [b]) == Step(ScanPage(s1, []), b);
  }

  /** A one-page, four-character document is four steps from the page start. */
  lemma ScanFour(a: PdfChar, b: PdfChar, c: PdfChar, d: PdfChar)
    ensures ScanPage(BeginPage(Initial), [a, b, c]) == Step(Step(Step(BeginPage(Initial), a), b), c)
    ensures ScanPages([[a, b, c, d]]) == Step(ScanPage(BeginPage(Initial), [a, b, c]), d)
  {
    var s0 := BeginPage(Initial);
    ScanOnePage([a, b, c, d]);
    assert [a, b, c, d][..3] == [a, b, c] && [a, b, c][..2] == [a, b] && [a, b][..1] == [a] && [a][..0] == [];
    assert ScanPage(s0, [a]) == Step(ScanPage(s0, []), a);
    assert ScanPage(s0, [a, b]) == Step(ScanPage(s0, [a]), b);
    assert ScanPage(s0, [a, b, c]) == Step(ScanPage(s0, [a, b]), c);
  }

  lemma StepOnPlainB()
    ensures Step(ScanState("A", map[], 1, 0, "a"), PdfChar('b', false)) == ScanState("Ab", map[], 2, 2, "a")
  {
    assert !IsFlush(PdfChar('b', false)) && !IsBoldLetter(PdfChar('b', false));
  }

  lemma StepOnC()
    ensures Step(ScanState("Ab", map[], 2, 2, "a"), PdfChar('C', true)) == ScanState("AbC", map[], 3, 2, "ac")
  {
    assert IsBoldLetter(PdfChar('C', true)) && LowerChar('C') == 'c';
  }

  /** The state once bold "A", plain "b" and bold "C" are read: start has moved past "b" and the
      pending word is "ac". */
  lemma PlainCharacterPrefix()
    ensures ScanPage(BeginPage(Initial), [PdfChar('A', true), PdfChar('b', false), PdfChar('C', true)])
            == ScanState("AbC", map[], 3, 2, "ac")
  {
    var a, b, c := PdfChar('A', true), PdfChar('b', false), PdfChar('C', true);
    FirstStepOnA();
    StepOnPlainB();
    StepOnC();
    ScanFour(a, b, c, PdfChar(' ', false));
  }

  /** A non-bold, non-whitespace character moves start but keeps the pending word: bold "A", plain "b",
      bold "C" and a space index "ac" at the offset of "C". */
  lemma PlainCharacterKeepsPendingWord()
    ensures ScanPages([[PdfChar('A', true), PdfChar('b', false), PdfChar('C', true), PdfChar(' ', false)]]).words
            == map["ac" := [2]]
  {
    var a, b, c, sp := PdfChar('A', true), PdfChar('b', false), PdfChar('C', true), PdfChar(' ', false);
    PlainCharacterPrefix();
    assert Step(ScanState("AbC", map[], 3, 2, "ac"), sp).words == map["ac" := [2]] by {
      assert IsFlush(sp);
      NotInLexicon("ac", 'a');
    }
    ScanFour(a, b, c, sp);
  }

  /** With nothing bold between the plain character and the space, the guard index - start > 0
      drops the pending "a". */
  lemma GuardDropsWordAfterPlainCharacter()
    ensures ScanPages([[PdfChar('A', true), PdfChar('b', false), PdfChar(' ', false)]]).words == map[]
  {
    var a, b, sp := PdfChar('A', true), PdfChar('b', false), PdfChar(' ', false);
    FirstStepOnA();
    StepOnPlainB();
    assert Step(ScanState("Ab", map[], 2, 2, "a"), sp).words == map[] by {
      assert IsFlush(sp);
    }
    ScanThree(a, b, sp);
  }
}
