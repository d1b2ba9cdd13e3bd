/** Shared wrappers and the handful of Python string operations the extractor relies on
    (str.isspace, str.lower/upper on ASCII letters, str.find, `in`, slicing, strip, split, int). */
module Common {

  datatype Option<T> = None | Some(value: T)

  /** Why a Python IndexError was raised. */
  datatype IndexReason =
    | EmptyOffsets        // `[0]` or `[-1]` on an empty offset list
    | OffsetsExhausted    // a while loop indexed past the end of an offset list
    | StartNotFound       // find_substring: start sequence absent
    | EndNotFound         // find_substring: end sequence absent after the start

  /** The two Python exceptions the core raises; KeyError carries the missing key (None for a None key). */
  datatype Error = KeyError(key: Option<string>) | IndexError(reason: IndexReason)

  datatype Result<T> = Success(value: T) | Failure(error: Error)

  // ---------------------------------------------------------------- characters

  /** Python's str.isspace() for a single character: tab to carriage return, the four information
      separators and space, NEL, no-break space, ogham space mark, the en quad to hair space block,
      line and paragraph separators, narrow no-break space, medium mathematical space, ideographic space. */
  predicate IsSpace(c: char) {
    var n := c as int;
    || 9 <= n <= 13 || 28 <= n <= 32 || n == 0x85 || n == 0xA0 || n == 0x1680
    || 0x2000 <= n <= 0x200A || n == 0x2028 || n == 0x2029 || n == 0x202F || n == 0x205F || n == 0x3000
  }

  predicate IsDigit(c: char) { '0' <= c <= '9' }

  predicate IsDigits(s: string) { |s| > 0 && forall i :: 0 <= i < |s| ==> IsDigit(s[i]) }

  function LowerChar(c: char): char {
    if 'A' <= c <= 'Z' then (c as int + 32) as char else c
  }

  function UpperChar(c: char): char {
    if 'a' <= c <= 'z' then (c as int - 32) as char else c
  }

  function Lower(s: string): (r: string)
    ensures |r| == |s| && forall i :: 0 <= i < |s| ==> r[i] == LowerChar(s[i])
  {
    seq(|s|, i requires 0 <= i < |s| => LowerChar(s[i]))
  }

  function Upper(s: string): (r: string)
    ensures |r| == |s| && forall i :: 0 <= i < |s| ==> r[i] == UpperChar(s[i])
  {
    seq(|s|, i requires 0 <= i < |s| => UpperChar(s[i]))
  }

  // ---------------------------------------------------------------- search

  /** `p` occurs in `s` at position `k`. */
  predicate OccursAt(s: string, p: string, k: int) {
    0 <= k && k + |p| <= |s| && s[k..k + |p|] == p
  }

  /** str.find from position k on. */
  function FindFrom(s: string, p: string, k: nat): (r: int)
    ensures r == -1 || (k <= r && r + |p| <= |s|)
    decreases |s| - k
  {
    if k + |p| > |s| then -1
    else if s[k..k + |p|] == p then k
    else FindFrom(s, p, k + 1)
  }

  /** Python's s.find(p): the first position where p occurs, or -1. */
  function Find(s: string, p: string): (r: int)
    ensures r == -1 || (0 <= r && r + |p| <= |s|)
  {
    FindFrom(s, p, 0)
  }

  lemma {:induction false} FindFromIsFirst(s: string, p: string, k: nat)
    requires forall m :: 0 <= m < k ==> !OccursAt(s, p, m)
    ensures var r := FindFrom(s, p, k);
      && (r == -1 <==> forall m :: !OccursAt(s, p, m))
      && (r != -1 ==> OccursAt(s, p, r) && forall m :: 0 <= m < r ==> !OccursAt(s, p, m))
    decreases |s| - k
  {
    if k + |p| > |s| {
      forall m ensures !OccursAt(s, p, m) {
        if m >= k { assert m + |p| > |s|; }
      }
    } else if s[k..k + |p|] == p {
      assert OccursAt(s, p, k);
    } else {
      assert !OccursAt(s, p, k);
      FindFromIsFirst(s, p, k + 1);
    }
  }

  /** str.find returns the first occurrence, and -1 exactly when there is none. */
  lemma FindIsFirst(s: string, p: string)
    ensures var r := Find(s, p);
      && (r == -1 <==> forall m :: !OccursAt(s, p, m))
      && (r != -1 ==> OccursAt(s, p, r) && forall m :: 0 <= m < r ==> !OccursAt(s, p, m))
  {
    FindFromIsFirst(s, p, 0);
  }

  /** Python's `p in s`. */
  function Contains(s: string, p: string): (b: bool)
    ensures b <==> exists m :: OccursAt(s, p, m)
  {
    FindIsFirst(s, p);
    Find(s, p) != -1
  }

  /** A search in the suffix s[i..] is a search in s shifted by i. */
  lemma OccursInSuffix(s: string, p: string, i: nat, j: int)
    requires i <= |s|
    ensures OccursAt(s[i..], p, j) <==> (j >= 0 && OccursAt(s, p, i + j))
  {
    if j >= 0 && i + j + |p| <= |s| {
      assert s[i..][j..j + |p|] == s[i + j..i + j + |p|];
    }
  }

  // ---------------------------------------------------------------- slicing

  /** A Python slice bound: negative values count from the end, then clamp to [0, n]. */
  function Clamp(i: int, n: nat): (r: nat)
    ensures r <= n
    ensures 0 <= i <= n ==> r == i
    ensures i < 0 && -i <= n ==> r == n + i
  {
    if i < 0 then (if i + n < 0 then 0 else i + n) else if i > n then n else i
  }

  /** Python's s[a:b]. */
  function Slice(s: string, a: int, b: int): (r: string)
    ensures 0 <= a <= b <= |s| ==> r == s[a..b]
    ensures b <= a && 0 <= b ==> r == []
  {
    var lo, hi := Clamp(a, |s|), Clamp(b, |s|);
    if lo < hi then s[lo..hi] else []
  }

  // ---------------------------------------------------------------- strip

  /** The first position at or after i that does not hold whitespace (|s| when there is none). */
  function LeadingFrom(s: string, i: nat): (n: nat)
    requires i <= |s|
    ensures i <= n <= |s|
    decreases |s| - i
  {
    if i < |s| && IsSpace(s[i]) then LeadingFrom(s, i + 1) else i
  }

  lemma {:induction false} LeadingFromSpaces(s: string, i: nat)
    requires i <= |s|
    ensures var n := LeadingFrom(s, i);
      && (forall k :: i <= k < n ==> IsSpace(s[k]))
      && (n < |s| ==> !IsSpace(s[n]))
    decreases |s| - i
  {
    if i < |s| && IsSpace(s[i]) {
      LeadingFromSpaces(s, i + 1);
    }
  }

  /** The position just after the last non-whitespace character before j (0 when there is none). */
  function TrailingTo(s: string, j: nat): (n: nat)
    requires j <= |s|
    ensures n <= j
  {
    if j > 0 && IsSpace(s[j - 1]) then TrailingTo(s, j - 1) else j
  }

  lemma {:induction false} TrailingToSpaces(s: string, j: nat)
    requires j <= |s|
    ensures var n := TrailingTo(s, j);
      && (forall k :: n <= k < j ==> IsSpace(s[k]))
      && (n > 0 ==> !IsSpace(s[n - 1]))
  {
    if j > 0 && IsSpace(s[j - 1]) {
      TrailingToSpaces(s, j - 1);
    }
  }

  /** Number of leading whitespace characters. */
  function LeadingSpaces(s: string): (n: nat)
    ensures n <= |s|
  {
    LeadingFrom(s, 0)
  }

  /** Python's s.strip(): the middle of s once the whitespace at both ends is removed. */
  function Strip(s: string): (r: string)
    ensures var a := LeadingSpaces(s); a + |r| <= |s| && r == s[a..a + |r|]
  {
    var a, b := LeadingSpaces(s), TrailingTo(s, |s|);
    if a < b then s[a..b] else []
  }

  /** strip removes exactly the whitespace at both ends: what it drops is whitespace, and what it
      keeps neither starts nor ends with whitespace. */
  lemma StripTrims(s: string)
    ensures var r, a := Strip(s), LeadingSpaces(s);
      && (forall i :: 0 <= i < a ==> IsSpace(s[i]))
      && (forall i :: a + |r| <= i < |s| ==> IsSpace(s[i]))
      && (r != [] ==> !IsSpace(r[0]) && !IsSpace(r[|r| - 1]))
  {
    LeadingFromSpaces(s, 0);
    TrailingToSpaces(s, |s|);
  }

  // ---------------------------------------------------------------- split

  /** Python's s.split(sep) for a non-empty separator. */
  function Split(s: string, sep: string): (r: seq<string>)
    requires sep != []
    ensures |r| > 0
    decreases |s|
  {
    FindIsFirst(s, sep);
    var j := Find(s, sep);
    if j == -1 then [s] else [s[..j]] + Split(s[j + |sep|..], sep)
  }

  /** sep.join(parts). */
  function Join(parts: seq<string>, sep: string): string
    requires |parts| > 0
  {
    if |parts| == 1 then parts[0] else parts[0] + sep + Join(parts[1..], sep)
  }

  /** Splitting and joining back with the same separator gives the original string,
      and no piece contains the separator. */
  lemma {:induction false} SplitJoin(s: string, sep: string)
    requires sep != []
    ensures Join(Split(s, sep), sep) == s
    ensures forall i :: 0 <= i < |Split(s, sep)| ==> !Contains(Split(s, sep)[i], sep)
    decreases |s|
  {
    FindIsFirst(s, sep);
    var j := Find(s, sep);
    if j != -1 {
      var rest := s[j + |sep|..];
      SplitJoin(rest, sep);
      assert Split(s, sep) == [s[..j]] + Split(rest, sep);
      assert s == s[..j] + sep + rest;
      forall m | OccursAt(s[..j], sep, m) ensures OccursAt(s, sep, m) {
        assert s[..j][m..m + |sep|] == s[m..m + |sep|];
      }
    } else {
      assert Split(s, sep) == [s];
    }
  }

  // ---------------------------------------------------------------- int()

  /** Python's int(s) for a string of decimal digits. */
  function DigitsValue(s: string): (n: nat)
  {
    if s == [] then 0 else 10 * DigitsValue(s[..|s| - 1]) + (s[|s| - 1] as int - '0' as int) % 10
  }

  /** Python's s.split(".")[0]: everything before the first period. */
  function IntegerPart(s: string): (r: string)
    ensures |r| <= |s| && r == s[..|r|]
    ensures Contains(s, ".") ==> OccursAt(s, ".", |r|) && !Contains(r, ".")
    ensures !Contains(s, ".") ==> r == s
  {
    FindIsFirst(s, ".");
    var j := Find(s, ".");
    if j == -1 then s
    else
      assert forall m :: OccursAt(s[..j], ".", m) ==> OccursAt(s, ".", m) by {
        forall m | OccursAt(s[..j], ".", m) ensures OccursAt(s, ".", m) {
          assert s[..j][m..m + 1] == s[m..m + 1];
        }
      }
      s[..j]
  }
}
