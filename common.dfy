/** Shared values and string helpers used by the template compiler model. */
module Common {

  datatype Option<T> = None | Some(value: T)

  /** The result of a source loop that may never stop: `Diverges` marks the inputs on which the
      PHP loop keeps running forever without changing its string. */
  datatype Outcome<T> = Done(value: T) | Diverges

  predicate StartsWith(s: string, p: string) {
    |p| <= |s| && s[..|p|] == p
  }

  /** `str_replace(pat, rep, s)`: every non-overlapping occurrence of `pat`, scanned from the
      left, is replaced by `rep`; an empty `pat` leaves `s` unchanged, as PHP does. */
  function ReplaceAll(s: string, pat: string, rep: string): string
    decreases |s|
  {
    if |pat| == 0 || |s| < |pat| then s
    else if s[..|pat|] == pat then rep + ReplaceAll(s[|pat|..], pat, rep)
    else [s[0]] + ReplaceAll(s[1..], pat, rep)
  }

  /** Replacing never adds more of a character `c` than the pattern carried. */
  lemma {:induction false} ReplaceAllNotMore(s: string, pat: string, rep: string, c: char)
    requires multiset(rep)[c] <= multiset(pat)[c]
    ensures multiset(ReplaceAll(s, pat, rep))[c] <= multiset(s)[c]
    decreases |s|
  {
    if |pat| == 0 || |s| < |pat| {
    } else if s[..|pat|] == pat {
      ReplaceAllNotMore(s[|pat|..], pat, rep, c);
      CountSplit(rep, ReplaceAll(s[|pat|..], pat, rep), c);
      CountSplitAt(s, |pat|, c);
    } else {
      ReplaceAllNotMore(s[1..], pat, rep, c);
      CountSplit([s[0]], ReplaceAll(s[1..], pat, rep), c);
      CountSplitAt(s, 1, c);
    }
  }

  /** When `pat` occurs at `i` and carries more `c` than `rep`, replacing strictly loses a `c`. */
  lemma {:induction false} ReplaceAllFewer(s: string, pat: string, rep: string, c: char, i: nat)
    requires |pat| > 0 && multiset(rep)[c] < multiset(pat)[c]
    requires i + |pat| <= |s| && s[i..i + |pat|] == pat
    ensures multiset(ReplaceAll(s, pat, rep))[c] < multiset(s)[c]
    decreases |s|
  {
    if s[..|pat|] == pat {
      ReplaceAllNotMore(s[|pat|..], pat, rep, c);
      CountSplit(rep, ReplaceAll(s[|pat|..], pat, rep), c);
      CountSplitAt(s, |pat|, c);
    } else {
      assert i != 0;
      assert s[1..][i - 1..i - 1 + |pat|] == s[i..i + |pat|];
      ReplaceAllFewer(s[1..], pat, rep, c, i - 1);
      CountSplit([s[0]], ReplaceAll(s[1..], pat, rep), c);
      CountSplitAt(s, 1, c);
    }
  }

  /** Counting a character in a concatenation. */
  lemma CountSplit(a: string, b: string, c: char)
    ensures multiset(a + b)[c] == multiset(a)[c] + multiset(b)[c]
  {
    assert multiset(a + b) == multiset(a) + multiset(b);
  }

  /** Counting a character on both sides of a cut. */
  lemma CountSplitAt(s: string, n: nat, c: char)
    requires n <= |s|
    ensures multiset(s)[c] == multiset(s[..n])[c] + multiset(s[n..])[c]
  {
    assert s == s[..n] + s[n..];
    CountSplit(s[..n], s[n..], c);
  }

  /** The head and the tail of a concatenation whose first part is not empty. */
  lemma ConcatTail<T>(d: seq<T>, t: seq<T>)
    requires |d| > 0
    ensures (d + t)[0] == d[0] && (d + t)[1..] == d[1..] + t
  {
  }

  /** Putting the head back in front of the tail. */
  lemma AppendAssoc<T>(a: seq<T>, b: seq<T>, c: seq<T>)
    ensures (a + b) + c == a + (b + c)
  {
  }

  lemma ConsJoin<T>(d: seq<T>, r: seq<T>)
    requires |d| > 0
    ensures [d[0]] + (d[1..] + r) == d + r
  {
    assert d == [d[0]] + d[1..];
  }

  /** `pat` occurs in `s` starting at index `i`. */
  predicate OccursAt(s: string, pat: string, i: nat) {
    i + |pat| <= |s| && s[i..i + |pat|] == pat
  }

  /** A string in which `pat` never occurs is left as it is. */
  lemma {:induction false} ReplaceAllAbsent(s: string, pat: string, rep: string)
    requires forall i: nat :: !OccursAt(s, pat, i)
    ensures ReplaceAll(s, pat, rep) == s
    decreases |s|
  {
    if |pat| == 0 || |s| < |pat| {
    } else {
      assert !OccursAt(s, pat, 0);
      forall i: nat ensures !OccursAt(s[1..], pat, i) {
        assert !OccursAt(s, pat, i + 1);
        if i + |pat| <= |s[1..]| {
          assert s[1..][i..i + |pat|] == s[i + 1..i + 1 + |pat|];
        }
      }
      ReplaceAllAbsent(s[1..], pat, rep);
      assert s == [s[0]] + s[1..];
    }
  }

  /** Replacing a whole string by itself changes nothing. */
  lemma ReplaceAllSelf(s: string)
    ensures ReplaceAll(s, s, s) == s
  {
    if |s| > 0 {
      assert s[..|s|] == s;
      assert s[|s|..] == [];
    }
  }

  predicate IsDigit(c: char) { '0' <= c <= '9' }

  /** PHP's `\w` without the Unicode flag: ASCII letters, digits and underscore. */
  predicate IsWordChar(c: char) {
    ('a' <= c <= 'z') || ('A' <= c <= 'Z') || IsDigit(c) || c == '_'
  }

  /** First index at or after `k` that is not a word character, or the end. */
  function WordEnd(t: string, k: nat): (r: nat)
    requires k <= |t|
    ensures k <= r <= |t| && (r == |t| || !IsWordChar(t[r]))
    ensures forall j :: k <= j < r ==> IsWordChar(t[j])
    decreases |t| - k
  {
    if k < |t| && IsWordChar(t[k]) then WordEnd(t, k + 1) else k
  }

  /** `WordEnd` is the end of the word run, wherever that is known to be. */
  lemma {:induction false} WordEndAt(t: string, k: nat, e: nat)
    requires k <= e <= |t| && forall j :: k <= j < e ==> IsWordChar(t[j])
    requires e == |t| || !IsWordChar(t[e])
    ensures WordEnd(t, k) == e
    decreases e - k
  {
    if k < e { WordEndAt(t, k + 1, e); }
  }

  /** PCRE's `\s`: space, tab, line feed, vertical tab, form feed, carriage return. */
  predicate IsSpace(c: char) {
    c == ' ' || c == '\t' || c == '\n' || c == '\U{B}' || c == '\U{C}' || c == '\r'
  }

  function DigitChar(d: nat): char
    requires d < 10
  {
    "0123456789"[d]
  }

  function DigitValue(c: char): nat
    requires IsDigit(c)
  {
    (c as int - '0' as int) as nat
  }

  /** Decimal form of a natural number, as PHP string interpolation writes it. */
  function NatToString(n: nat): (r: string)
    ensures |r| > 0 && forall k :: 0 <= k < |r| ==> IsDigit(r[k])
    decreases n
  {
    if n < 10 then [DigitChar(n)] else NatToString(n / 10) + [DigitChar(n % 10)]
  }

  /** Decimal form of an integer; a negative loop level is written with a leading '-'. */
  function IntToString(i: int): (r: string)
    ensures |r| > 0 && forall k :: 0 <= k < |r| ==> IsDigit(r[k]) || r[k] == '-'
  {
    if i < 0 then "-" + NatToString(-i) else NatToString(i)
  }

  function ParseNat(s: string): nat
    requires forall k :: 0 <= k < |s| ==> IsDigit(s[k])
    decreases |s|
  {
    if |s| == 0 then 0 else ParseNat(s[..|s| - 1]) * 10 + DigitValue(s[|s| - 1])
  }

  function ParseInt(s: string): int
    requires |s| > 0 && forall k :: 0 <= k < |s| ==> IsDigit(s[k]) || s[k] == '-'
    requires forall k :: 0 < k < |s| ==> IsDigit(s[k])
  {
    if s[0] == '-' then 0 - ParseNat(s[1..]) as int else ParseNat(s) as int
  }

  lemma {:induction false} ParseNatToString(n: nat)
    ensures ParseNat(NatToString(n)) == n
    decreases n
  {
    if n >= 10 {
      var s := NatToString(n);
      ParseNatToString(n / 10);
      assert s[..|s| - 1] == NatToString(n / 10);
    }
  }

  lemma IntToStringParses(i: int)
    ensures ParseInt(IntToString(i)) == i
  {
    if i < 0 {
      ParseNatToString(-i);
      assert IntToString(i)[1..] == NatToString(-i);
    } else {
      ParseNatToString(i);
    }
  }

  /** Distinct integers are written differently, so level-suffixed names never collide. */
  lemma IntToStringInjective(i: int, j: int)
    requires i != j
    ensures IntToString(i) != IntToString(j)
  {
    IntToStringParses(i);
    IntToStringParses(j);
  }
}
