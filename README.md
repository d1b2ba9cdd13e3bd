# Bold-anchor segmenter and temporal-interval inference, in Dafny

This project models the two computational parts of the AAER PDF extractor.

- **Segmenter** (`src/pdf_miner.py`). The character loop of `extract_pdf_from_url` builds the
  document text. It also builds an index from each lower-cased bold word to the offsets where it
  starts. `get_section_portion` and `get_summary_portion` cut the header section and the summary
  out of the text, using anchors from that index. The summary has a chain of fallbacks: the
  "respondent" anchor, then "respondents", then the nearest later bold offset. It also has a
  degraded path that runs to the end of the document. The small helpers `find_substring`,
  `check_21c` and `get_company_name_from_section` come with it.
- **Temporal inference** (`src/nlp_engine.py`). `parse_text` walks a dependency-parsed token
  sequence and collects years, (year, month) pairs and quarter mentions. It uses `find_year` and
  `find_quarters` for this. `find_interval` then merges the quarters into the caller's
  year → months dictionary. It reduces everything to the earliest and latest accepted
  (year, month): a pair is accepted when its time stamp lies inside the two-sigma band of the years.

Files:

- `common.dfy` (`Common`): `Option`, `Result`, the raised exceptions, and the Python string
  operations used: `isspace`, ASCII `lower`/`upper`, `find`, `in`, slicing with negative bounds,
  `strip`, `split(sep)`, `int()` on digits.
- `bold_index.dfy` (`BoldIndex`): the character loop, as an imperative method proved against a
  prefix-recursive specification, and its invariants.
- `segmenter.dfy` (`Segmenter`): the section and summary slicers, `find_substring`, `check_21c`,
  and the company name from the section title.
- `interval.dfy` (`Interval`): `find_interval`. This is the in-place merge of quarter months into
  a `MonthsByYear` object, then the two-sigma band with the running minimum and maximum.
- `temporal.dfy` (`Temporal`): `find_year`, `find_quarters` and the token loop of `parse_text`.

Specification functions that carry no contract of their own, and the code they model. The lemmas
and methods in the table below state their properties.

- `BoldIndex.Step` and `BoldIndex.IndexedForm`: one iteration of the character loop,
  src/pdf_miner.py:55-74. `BoldIndex.ScanPage` and `BoldIndex.ScanPages` run it over a page and
  over all pages, src/pdf_miner.py:51-54.
- `Segmenter.SectionPortion`: `get_section_portion`, src/pdf_miner.py:78-83.
- `Segmenter.FindSubstring`: `find_substring`, src/pdf_miner.py:29-42.
- `Segmenter.EndKey` and `Segmenter.AnchorEnd`: the end-anchor choice and its while loop,
  src/pdf_miner.py:93-104.
- `Interval.InBand`: the two-sigma band test, src/nlp_engine.py:87-91 and 102.
- `Temporal.TokenYear`, `Temporal.TokenMonth` and `Temporal.TokenQuarter`: one token's year,
  month and quarter rules, src/nlp_engine.py:134-161.
- `Temporal.QuarterYear`: `find_year`, src/nlp_engine.py:36-49.
- `Temporal.QuarterLocation`: the location part of `find_quarters`, src/nlp_engine.py:61-73.

Exact arithmetic replaces the floats in `find_interval`. Year y, month m becomes the integer month
L = 12·y + m, so the time stamp `y + m/12` is L/12.

- With n > 1 years of sum S and sum of squares Q, the test `mean − 2σ < L/12 < mean + 2σ` (σ the
  population deviation) becomes `(n·L − 12·S)² < 576·(n·Q − S²)`. Lemma `Interval.TwoSigmaIsExact`
  proves the two tests are the same over the reals.
- With at most one year the band is `0 < L < 1200000`.
- The outputs are `L div 12` and `L mod 12`.
- The sentinels `lower_in_range = 100000` and `upper_in_range = 0` become 1200000 and 0.

Behaviour of the code worth knowing:

- The two-sigma band does not exclude 2099 from the years 2015, 2016, 2017, 2099: January 2099
  lies inside it (`Interval.OutlierStaysInBand`). The reason is that, with the population
  deviation, no value among four lies more than √3 deviations from the mean; the model proves
  only this instance, not that general bound.
- A single year with no months gives the sentinel interval {100000, 0, 0, 0}, not an interval
  around that year. Years only shape the band; time stamps come from months alone
  (`Interval.LoneYearGivesSentinel`).
- For a start above 0, the summary end found through the anchor is the first offset *strictly
  greater* than the start, minus one. It is not one "at least" the start
  (`Segmenter.AnchorEndIsFirstAbove`). For a start of 0 or below the while loop does not run and
  the end stays 0. A summary starting at offset 0 is then empty when the section also starts at 0
  (`Segmenter.SummaryAtOffsetZeroIsEmpty`); when the section starts later, the start lies before it
  and the degraded return applies (`Segmenter.SummaryAtOffsetZeroBeforeSection`).
- A key is not always the bold word at its offset. Bold letters before a plain character stay in
  the pending word while start moves past them: bold A, plain b, bold C give "ac" at the offset
  of C (`BoldIndex.PlainCharacterKeepsPendingWord`). start is not reset at a page break while the
  word is: a bold A ending one page and a bold B opening the next give "b" at the offset of A
  (`BoldIndex.WordAcrossPageBreak`). In every case the key, less its numeral period, and the
  lower-cased bold run from its offset end one another (`BoldIndex.KeysAreSpelled`).
- The section's offsets need not be ordered. When the first "i." is at offset 1 or later and
  comes before "in", start > end and the section is empty (`Segmenter.SectionMayBeReversed`).
  When it is at offset 0, end is -1, which the slice reads from the end of the text: the section
  runs from the "in" offset to the last character but one (`Segmenter.SectionWrapsAtOffsetZero`).

## Model

| member | source | states |
|---|---|---|
| BoldIndex.ExtractBoldWords | src/pdf_miner.py:51-76 | The loop's text and index are those of the page-by-page scan. The text is the characters in order. Every key is non-empty, and its offsets are in range, strictly increasing and anchored at a run of bold letters that ends at a flushing character. |
| BoldIndex.IndexIsWellFormed | src/pdf_miner.py:51-74 | For every input, every recorded offset o has 0 ≤ o < \|text\|. Each key's list strictly increases, so `[-1]` is its maximum. The characters from o up to the flushing character are bold non-break characters. |
| BoldIndex.KeysAreSpelled | src/pdf_miner.py:55-71 | For every input, every offset o of every key w opens a run of bold letters closed by a flushing character at f. w without its numeral period and the lower-cased text[o:f] are each a suffix of one or the other. |
| BoldIndex.WordAcrossPageBreak | src/pdf_miner.py:51-69 | start survives a page break while the pending word does not: bold A on one page and bold B then a space on the next index "b" at offset 0. |
| BoldIndex.SectionNumeralGetsPeriod | src/pdf_miner.py:61-62 | Bold "I." is indexed as "i." at offset 0. "in" is not a substring of the numeral lexicon, so it gets no period. |
| BoldIndex.LongerNumeralGetsPeriod | src/pdf_miner.py:61-62 | Bold "IV" followed by a space is indexed as "iv.". |
| BoldIndex.NumeralTestIsSubstring | src/pdf_miner.py:61 | The numeral test is a substring test on "xxiiixxivxxviiixxx": "ivxx" gets a period and "xl" does not. |
| BoldIndex.PendingWordDroppedAtPageEnd | src/pdf_miner.py:52-53 | A bold word pending when its page ends is never recorded. On one page the same characters record it at offset 0. |
| BoldIndex.PlainCharacterKeepsPendingWord | src/pdf_miner.py:70-73 | A plain non-space character moves start but keeps the pending word: bold A, plain b, bold C, then a space, index "ac" at offset 2. |
| BoldIndex.GuardDropsWordAfterPlainCharacter | src/pdf_miner.py:59 | When nothing bold follows the plain character, the guard `index - start > 0` drops the pending word. |
| Segmenter.SectionOutcome | src/pdf_miner.py:78-83 | On a well-formed index, the section fails exactly when an anchor is missing. The KeyError names the first missing lower-cased key. Otherwise start is the first offset of "in" and end is the first offset of "i." minus one. |
| Segmenter.SectionWithinAnchors | src/pdf_miner.py:80-83 | With ordered anchors, the section is `strip` of text[start:end]. It is a contiguous piece of that slice, and a non-empty section has no whitespace at either end. |
| Segmenter.SectionMayBeReversed | src/pdf_miner.py:80-83 | Anchors in reverse order, "i." at 3 and "in" at 10, give start 10, end 2 and an empty section. |
| Segmenter.SectionWrapsAtOffsetZero | src/pdf_miner.py:80-83 | With "i." at offset 0 and "in" at 5, end is -1 and the section is `strip` of text[5:-1], a slice of \|text\| − 6 characters rather than an empty one. |
| Segmenter.SummaryStart | src/pdf_miner.py:87-90 | Without a start anchor, the start is found (no error) and is -1 or more. With a start anchor, it fails exactly when the anchor's offset list is empty. |
| Segmenter.AnchorUsable | src/pdf_miner.py:93 | The `[-1]` test fails exactly on a present key with an empty list. |
| Segmenter.UsableMeans | src/pdf_miner.py:93-95 | On a well-formed index, the anchor passes the test exactly when its key is present with some offset at or after the start. |
| Segmenter.EndKeyMeans | src/pdf_miner.py:93-95 | On a well-formed index, the end anchor is the given key when it has an offset at or after the start, else the plural when that has one, else none (the fallback). |
| Segmenter.BuiltIndexHasShape | src/pdf_miner.py:59-67 | The index the character loop builds is well-formed: every list non-empty, non-negative and strictly increasing. |
| Segmenter.SummaryPortion | src/pdf_miner.py:85-111 | With no usable respondent(s) anchor, the end is the smallest offset above start, or start + 10000000. Otherwise the end is what the anchor's while loop gives, or its IndexError. A start before the section gives the degraded (text[e+1:], e+1, -1) with the warning flag set. |
| Segmenter.FallbackEnd | src/pdf_miner.py:96-100 | The double loop over all keys and offsets leaves the smallest offset above start, or start + 10000000. |
| Segmenter.SmallestAbove | src/pdf_miner.py:98-100 | The inner loop keeps the smallest offset of one list above start, when it is below the current end. |
| Segmenter.AnchorLoop | src/pdf_miner.py:102-104 | The anchor's while loop computes AnchorEnd, including its IndexError. |
| Segmenter.AnchorEndIsFirstAbove | src/pdf_miner.py:101-104 | For start > 0, the loop ends at the first offset strictly above start, minus one. It raises IndexError exactly when no offset is above start. |
| Segmenter.AnchorEndOnSortedList | src/pdf_miner.py:101-104 | On a sorted list, the anchor end plus one is the smallest offset above start. |
| Segmenter.AnchorAtStartOverruns | src/pdf_miner.py:93-104 | When the largest offset equals start, the anchor passes the `[-1]` test but the while loop runs past its list. |
| Segmenter.FallbackEndIsUnique | src/pdf_miner.py:95-100 | The fallback end does not depend on the order in which keys are visited. |
| Segmenter.FallbackToNextBoldWord | src/pdf_miner.py:95-100 | With no respondent anchors, offsets 100, 250, 400 and start 150, the summary ends at 250. |
| Segmenter.PluralAnchorEndsSummary | src/pdf_miner.py:93-104 | With only "respondents" at 500 and start 300, the summary ends at 499. |
| Segmenter.SummaryAtOffsetZeroIsEmpty | src/pdf_miner.py:92-111 | A summary anchor at offset 0 leaves the end at its initial 0, because the while loop does not run. With the section also starting at 0, the summary is ("", 0, 0) without the warning. |
| Segmenter.SummaryAtOffsetZeroBeforeSection | src/pdf_miner.py:92-109 | The same anchors with the section at 5..9 give the degraded (text[10:], 10, -1) with the warning. |
| Segmenter.SummaryBeforeSectionIsDegraded | src/pdf_miner.py:106-109 | A summary anchor before the section start gives (text[10:], 10, -1) with the warning. |
| Segmenter.FindSubstringStart | src/pdf_miner.py:29-33 | The start is the first case-insensitive match of `start`. The start-not-found IndexError happens exactly when there is none. |
| Segmenter.FindSubstringEnd | src/pdf_miner.py:35-42 | The end is the first match of `end` at or after the start. If `end` begins with "Resp" and does not occur there, it is the first match of `end[:-1] + "s\n"`. In both cases start ≤ end. |
| Segmenter.EndSearchIsFirst | src/pdf_miner.py:35-40 | The end search from the start match finds nothing exactly when neither `end` nor the applicable retry sequence occurs. Otherwise it finds the first match of `end`, or, when the retry applies, the first match of the retry sequence. |
| Segmenter.FindSubstringEndMissing | src/pdf_miner.py:35-40 | Once the start is found, the end-not-found IndexError happens exactly when neither `end` nor the applicable retry sequence occurs after it. |
| Segmenter.Check21c | src/pdf_miner.py:113-116 | True exactly when "21c" occurs in the lower-cased section. |
| Segmenter.CompanyNameFromSection | src/pdf_miner.py:118-128 | Errors from find_substring propagate. Otherwise the answer for the stripped title is as CompanyNameOfTitle states. |
| Segmenter.CompanyNameOfTitle | src/pdf_miner.py:120-128 | None exactly when the title has no LLP/LLC/CORP/INC, or has "and"s and no part with one. A title with no "and" is returned whole. Otherwise the first part with a suffix is returned. |
| Common.FindIsFirst | src/pdf_miner.py:31 | `str.find` gives the first occurrence, and -1 exactly when there is none. |
| Common.StripTrims | src/pdf_miner.py:83 | `strip` removes exactly the whitespace at both ends: what it drops is whitespace, and what it keeps neither starts nor ends with whitespace. |
| Common.SplitJoin | src/pdf_miner.py:123 | Joining the parts of `split(sep)` with sep gives the string back, and no part contains sep. |
| Common.IntegerPart | src/nlp_engine.py:32 | `split(".")[0]` is the prefix before the first period, or the whole string when there is none. |
| Temporal.GetYearFromChild | src/nlp_engine.py:18-34 | A value exactly for pobj/nummod tokens of shape dddd (the number) or dddd.d / dddd.dd (the number before the period). |
| Temporal.FindYear | src/nlp_engine.py:36-49 | The result is the last value present among the tested grandchildren and great-grandchildren, in traversal order. |
| Temporal.TestGrandchildren | src/nlp_engine.py:38-47 | The middle loop leaves the last value found below one child, or the previous year when none is found. |
| Temporal.TestGreatGrandchildren | src/nlp_engine.py:40-43 | The innermost loop leaves the last value found among the great-grandchildren, or the previous year. |
| Temporal.LastSomeIsLast | src/nlp_engine.py:36-49 | Last match wins: the result is None exactly when nothing qualifies. Otherwise it is a qualifying value after which nothing qualifies. |
| Temporal.LastSomeAppend | src/nlp_engine.py:37-47 | Testing a sequence after another keeps the earlier year only when the later part finds nothing. |
| Temporal.OwnChildrenNeverTested | src/nlp_engine.py:37-38 | When the quarter's children have no children, nothing is tested, whatever the children themselves are. |
| Temporal.YearWordWithoutChildrenIsSkipped | src/nlp_engine.py:39-43 | A year-word grandchild is never tested itself, only its children. |
| Temporal.YearWordExamples | src/nlp_engine.py:39 | The empty lemma, "Year", "FY" and "s" are year words, because `in "fys"` is a substring test. "fiscal" is not. |
| Temporal.FindQuarters | src/nlp_engine.py:52-73 | quantity is the last nummod child. location is the last amod child of the quantity, else the last amod child of the token, else None. |
| Temporal.LastWithDepIsLast | src/nlp_engine.py:61-66 | The last child with the label is found, and None exactly when no child has it. |
| Temporal.LastWithDep | src/nlp_engine.py:62-64 | A found child is a token carrying the label. |
| Temporal.AddTo | src/nlp_engine.py:144-147 | Appending to a key's list creates the list when absent and leaves other keys unchanged. |
| Temporal.DateStep | src/nlp_engine.py:134-151 | One token's year and month rules: shape, dependency, head and head-of-head tests, and the month-name lookup. |
| Temporal.QuarterStep | src/nlp_engine.py:154-161 | A "quarter" token adds {location, quantity} under its year, and only when find_year finds one. |
| Temporal.CollectMentions | src/nlp_engine.py:129-161 | The loop's years, months and quarters are the prefix-recursive collections over all tokens. |
| Temporal.ParseText | src/nlp_engine.py:116-163 | Fails with KeyError exactly when some collected mention has an unknown location. Otherwise the result is the interval of the years over the months merged with the quarters. |
| Temporal.YearsAreTokenYears | src/nlp_engine.py:134-151 | A year is collected exactly when some token's year rule yields it. |
| Temporal.MonthsAreTokenMonths | src/nlp_engine.py:143-147 | Month m is listed under year y exactly when some token yields (y, m). |
| Temporal.QuartersAreTokenQuarters | src/nlp_engine.py:154-161 | A mention is listed under year y exactly when some quarter token yields it for y. |
| Interval.MonthsByYear.constructor | src/nlp_engine.py:76 | The caller's months dictionary object holds the given entries. |
| Interval.QuarterMonths | src/nlp_engine.py:96-97 | One month per mention, in order: the table entry of its location. |
| Interval.MergeYears | src/nlp_engine.py:93-97 | Merged years get their quarter months appended to their old list, or to an empty one. Every other entry is unchanged. |
| Interval.MergeOneMore | src/nlp_engine.py:93-97 | Merging one more year changes only that year's entry. |
| Interval.MergePlacesMentions | src/nlp_engine.py:93-97 | After the merge, a year's list starts with its old list, and mention k's month sits at position \|old\| + k. |
| Interval.AppendQuarters | src/nlp_engine.py:94-97 | One year's mentions are appended in order, and it succeeds exactly when every location is known. On a KeyError, the error names mention k's location, every mention before k is known, and the year's list holds exactly the months of those mentions. |
| Interval.MergeQuarters | src/nlp_engine.py:93-97 | Succeeds exactly when every location is known, leaving the dictionary merged. Otherwise it gives KeyError carrying an unknown mention's location (None included). |
| Interval.FindInterval | src/nlp_engine.py:76-113 | The merge, then the interval of the merged dictionary, or the merge's KeyError. |
| Interval.IntervalOf | src/nlp_engine.py:87-113 | The start is the smaller of 100000 years and the least accepted stamp, and the end the larger of 0 and the greatest accepted stamp, each as (L div 12, L mod 12). Only (year, month) pairs of the dictionary are stamps. |
| Interval.TwoSigmaIsExact | src/nlp_engine.py:89-102 | The integer band test equals `mean − 2σ < y + m/12 < mean + 2σ` over the reals. |
| Interval.BandIsSquare | src/nlp_engine.py:102 | For σ ≥ 0, −2σ < x < 2σ exactly when x² < 4σ². |
| Interval.IntervalIsUnique | src/nlp_engine.py:99-106 | The interval does not depend on the dictionary's iteration order. |
| Interval.LowestIsUnique | src/nlp_engine.py:103-104 | The running minimum is determined by the accepted stamps. |
| Interval.HighestIsUnique | src/nlp_engine.py:105-106 | The running maximum is determined by the accepted stamps. |
| Interval.IntervalShape | src/nlp_engine.py:101-113 | With some pair accepted, start ≤ end. The result is {100000, 0, 0, 0} exactly when none is accepted. |
| Interval.DecemberRollsOver | src/nlp_engine.py:108-113 | Month 12 of year y comes out as (y+1, 0). |
| Interval.LoneYearGivesSentinel | src/nlp_engine.py:87-89 | One year and no months give {100000, 0, 0, 0}. |
| Interval.OutlierStaysInBand | src/nlp_engine.py:89-91 | January 2099 lies inside the band of 2015, 2016, 2017, 2099. |

## Left out

- The HTTP download and the PDF opening in `extract_pdf_from_url`: library I/O. The model takes
  the pages' characters as input, each one character with a bold flag. The flag stands for
  `"bold" in fontname.lower()`, which it does not compute.
- `spacy.load` and `engine(text)`: an external parser. Tokens are an input, and their shape
  codes are given attributes. `WfTokens` requires a "dddd" token to be digits, and a
  "dddd.d"/"dddd.dd" token to be digits before its period, so that `int()` does not raise.
- `get_company_name`: it depends on named-entity output and on `fuzz.token_set_ratio`, a foreign
  library.
- Database, DynamoDB, SEC API and driver code (`get_urls_from_db`, `set_scraped_db`,
  `add_to_dynamo`, `get_company_info`, `scrape_pdfs`, `__main__`): I/O, sleeps and retries.
- The two `print` warnings of `get_summary_portion` become the `warned` flag of the result.
- The contents of `misreporting_terms`, `month_names` and `quarter_to_month` are not shown; they
  are parameters. `misreporting_terms` is treated as a collection (membership, not substring).
- numpy float evaluation and IEEE rounding in `find_interval`: the integer-month model above is
  exact.
- Lower: case mapping covers ASCII letters only; Python's full Unicode `lower`/`upper` (for
  example "ß".upper() == "SS") is not modelled.
- Interval.MergeQuarters: on a KeyError the dictionary holds the years merged so far, an empty
  list possibly created for the failing year, and that year's months up to the failure. The
  contract says which error is raised but not this partial state.
- Interval.MergeQuarters and Interval.IntervalOf: dictionary iteration order is left open, so the
  KeyError raised when several locations are unknown is one of them, not a specific one. The
  interval itself does not depend on the order (`Interval.IntervalIsUnique`).
- Segmenter.SummaryPortion, Segmenter.FindSubstring: only the error's kind is modelled, not the
  message text.
- `get_section_portion` and `get_summary_portion` read `self.bold_words`, `self.text`,
  `self.section_start` and `self.section_end`. These are passed in explicitly; the `PDFReader`
  constructor's sequencing is not modelled.
