/** The reduction an `{include="..."}` path goes through before it is translated: repeated slashes
    collapse (except right after a `://` scheme marker), `/./` collapses, backslashes double, and
    `segment/../` units are removed. */
module IncludePath {
  import opened Common

  /** The characters of `s` outside `drop`, in order. */
  function Without(s: string, drop: set<char>): string
    decreases |s|
  {
    if |s| == 0 then "" else (if s[0] in drop then "" else [s[0]]) + Without(s[1..], drop)
  }

  lemma {:induction false} WithoutAppend(x: string, y: string, drop: set<char>)
    ensures Without(x + y, drop) == Without(x, drop) + Without(y, drop)
    decreases |x|
  {
    if |x| == 0 {
      assert x + y == y;
    } else {
      assert (x + y)[1..] == x[1..] + y;
      WithoutAppend(x[1..], y, drop);
    }
  }

  /** First index at or after `i` that is not a `/`, or the end. */
  function SlashRunEnd(s: string, i: nat): (r: nat)
    requires i <= |s|
    ensures i <= r <= |s| && (r == |s| || s[r] != '/')
    ensures forall k :: i <= k < r ==> s[k] == '/'
    decreases |s| - i
  {
    if i < |s| && s[i] == '/' then SlashRunEnd(s, i + 1) else i
  }

  /** Dropping a run of slashes loses nothing outside `drop` when `/` is in `drop`. */
  lemma {:induction false} SlashRunDropped(s: string, i: nat, drop: set<char>)
    requires i <= |s| && '/' in drop
    ensures Without(s[i..], drop) == Without(s[SlashRunEnd(s, i)..], drop)
    decreases |s| - i
  {
    if i < |s| && s[i] == '/' {
      assert s[i..][1..] == s[i + 1..];
      SlashRunDropped(s, i + 1, drop);
    }
  }

  // ---------------------------------------------------------------------------------------
  // First pattern: `(://(*SKIP)(*FAIL))|(/{2,})` replaced by `/`

  predicate DoubleSlashAt(s: string, i: nat) {
    i + 1 < |s| && s[i] == '/' && s[i + 1] == '/'
  }

  /** A `://` is stepped over untouched; any other run of two or more slashes becomes one. */
  function CollapseSlashes(s: string): (r: string)
    ensures |r| > 0 <==> |s| > 0
    ensures |s| > 0 ==> r[0] == s[0]
    decreases |s|
  {
    if |s| == 0 then ""
    else if StartsWith(s, "://") then "://" + CollapseSlashes(s[3..])
    else if DoubleSlashAt(s, 0) then "/" + CollapseSlashes(s[SlashRunEnd(s, 0)..])
    else [s[0]] + CollapseSlashes(s[1..])
  }

  /** Only slashes are removed: every other character stays, in order. */
  lemma {:induction false} CollapseKeepsOthers(s: string)
    ensures Without(CollapseSlashes(s), {'/'}) == Without(s, {'/'})
    decreases |s|
  {
    if |s| == 0 {
    } else if StartsWith(s, "://") {
      CollapseKeepsOthers(s[3..]);
      WithoutAppend("://", CollapseSlashes(s[3..]), {'/'});
      WithoutAppend("://", s[3..], {'/'});
      assert s == "://" + s[3..];
    } else if DoubleSlashAt(s, 0) {
      var e := SlashRunEnd(s, 0);
      CollapseKeepsOthers(s[e..]);
      WithoutAppend("/", CollapseSlashes(s[e..]), {'/'});
      SlashRunDropped(s, 0, {'/'});
      assert s[0..] == s;
    } else {
      CollapseKeepsOthers(s[1..]);
    }
  }

  /** Without a `:` in the path, no two slashes are left side by side. */
  lemma {:induction false} CollapseNoDoubleSlash(s: string)
    requires forall k :: 0 <= k < |s| ==> s[k] != ':'
    ensures forall i: nat :: !DoubleSlashAt(CollapseSlashes(s), i)
    decreases |s|
  {
    if |s| == 0 {
    } else if DoubleSlashAt(s, 0) {
      var e := SlashRunEnd(s, 0);
      CollapseNoDoubleSlash(s[e..]);
      var t := CollapseSlashes(s[e..]);
      forall i: nat ensures !DoubleSlashAt("/" + t, i) {
        if i > 0 { assert !DoubleSlashAt(t, i - 1); }
      }
    } else {
      assert !StartsWith(s, "://");
      CollapseNoDoubleSlash(s[1..]);
      var t := CollapseSlashes(s[1..]);
      forall i: nat ensures !DoubleSlashAt([s[0]] + t, i) {
        if i > 0 { assert !DoubleSlashAt(t, i - 1); }
      }
    }
  }

  /** Text without `:` and `/` passes through the first pattern as it is. */
  lemma {:induction false} CollapsePlainPrefix(x: string, y: string)
    requires forall k :: 0 <= k < |x| ==> x[k] != ':' && x[k] != '/'
    ensures CollapseSlashes(x + y) == x + CollapseSlashes(y)
    decreases |x|
  {
    if |x| == 0 {
      assert x + y == y;
    } else {
      CollapsePlainPrefix(x[1..], y);
      ConcatTail(x, y);
      CollapseKeepsHead(x + y);
      ConsJoin(x, CollapseSlashes(y));
    }
  }

  /** A first character that is neither `:` nor `/` is kept and the rest collapses. */
  lemma CollapseKeepsHead(s: string)
    requires |s| > 0 && s[0] != ':' && s[0] != '/'
    ensures CollapseSlashes(s) == [s[0]] + CollapseSlashes(s[1..])
  {
    assert !StartsWith(s, "://") && !DoubleSlashAt(s, 0);
  }

  /** A URL scheme keeps its `://` while the slashes after it collapse. */
  lemma SchemeKept(scheme: string, rest: string)
    requires forall k :: 0 <= k < |scheme| ==> scheme[k] != ':' && scheme[k] != '/'
    ensures CollapseSlashes(scheme + "://" + rest) == scheme + "://" + CollapseSlashes(rest)
  {
    var s := "://" + rest;
    CollapsePlainPrefix(scheme, s);
    assert s[..3] == "://" && s[3..] == rest;
    assert scheme + "://" + rest == scheme + s;
    assert CollapseSlashes(s) == "://" + CollapseSlashes(rest);
  }

  // ---------------------------------------------------------------------------------------
  // Second pattern: `/\./+` replaced by `/`, one left-to-right pass

  predicate DotSlashAt(s: string, i: nat) {
    i + 2 < |s| && s[i] == '/' && s[i + 1] == '.' && s[i + 2] == '/'
  }

  function DotSlash(s: string): string
    decreases |s|
  {
    if |s| == 0 then ""
    else if DotSlashAt(s, 0) then "/" + DotSlash(s[SlashRunEnd(s, 2)..])
    else [s[0]] + DotSlash(s[1..])
  }

  /** Only slashes and dots are removed: every other character stays, in order. */
  lemma {:induction false} DotSlashKeepsOthers(s: string)
    ensures Without(DotSlash(s), {'/', '.'}) == Without(s, {'/', '.'})
    decreases |s|
  {
    if |s| == 0 {
    } else if DotSlashAt(s, 0) {
      var e := SlashRunEnd(s, 2);
      DotSlashKeepsOthers(s[e..]);
      WithoutAppend("/", DotSlash(s[e..]), {'/', '.'});
      SlashRunDropped(s, 2, {'/', '.'});
      assert s[2..] == s[1..][1..] && s[1..] == s[1..];
      assert Without(s, {'/', '.'}) == Without(s[2..], {'/', '.'});
    } else {
      DotSlashKeepsOthers(s[1..]);
    }
  }

  lemma {:induction false} DotSlashPlainPrefix(x: string, y: string)
    requires forall k :: 0 <= k < |x| ==> x[k] != '/'
    ensures DotSlash(x + y) == x + DotSlash(y)
    decreases |x|
  {
    if |x| == 0 {
      assert x + y == y;
    } else {
      var s := x + y;
      assert s[0] == x[0] && s[1..] == x[1..] + y;
      DotSlashPlainPrefix(x[1..], y);
      assert x == [x[0]] + x[1..];
    }
  }

  lemma DotSlashCurrent(y: string)
    requires y == [] || y[0] != '/'
    ensures DotSlash("/./" + y) == "/" + DotSlash(y)
  {
    var s := "/./" + y;
    assert DotSlashAt(s, 0);
    assert SlashRunEnd(s, 2) == 3;
    assert s[3..] == y;
  }

  /** `a/./b` becomes `a/b`: a `/./` standing for the current directory collapses to one slash. */
  lemma CurrentDirDropped(x: string, y: string)
    requires forall k :: 0 <= k < |x| ==> x[k] != '/'
    requires y == [] || y[0] != '/'
    ensures DotSlash(x + ("/./" + y)) == x + ("/" + DotSlash(y))
  {
    DotSlashPlainPrefix(x, "/./" + y);
    DotSlashCurrent(y);
  }

  // ---------------------------------------------------------------------------------------
  // Third pattern: every backslash doubled

  function DoubleBackslashes(s: string): string
    decreases |s|
  {
    if |s| == 0 then "" else (if s[0] == '\\' then "\\\\" else [s[0]]) + DoubleBackslashes(s[1..])
  }

  /** Reading each pair of backslashes back as one. */
  function HalveBackslashes(s: string): string
    decreases |s|
  {
    if |s| >= 2 && s[0] == '\\' && s[1] == '\\' then "\\" + HalveBackslashes(s[2..])
    else if |s| == 0 then ""
    else [s[0]] + HalveBackslashes(s[1..])
  }

  /** Doubling loses nothing: halving gives the path back. */
  lemma {:induction false} DoublingReversible(s: string)
    ensures HalveBackslashes(DoubleBackslashes(s)) == s
    decreases |s|
  {
    if |s| > 0 {
      DoublingReversible(s[1..]);
      var d := DoubleBackslashes(s);
      if s[0] == '\\' {
        assert d[2..] == DoubleBackslashes(s[1..]);
      } else {
        assert d[1..] == DoubleBackslashes(s[1..]);
      }
      assert s == [s[0]] + s[1..];
    }
  }

  /** The three patterns, applied in order. */
  function Normalized(path: string): string {
    DoubleBackslashes(DotSlash(CollapseSlashes(path)))
  }

  // ---------------------------------------------------------------------------------------
  // Removing `segment/../`

  /** `/../` starts at `e`. */
  predicate ParentAt(s: string, e: nat) {
    e + 3 < |s| && s[e] == '/' && s[e + 1] == '.' && s[e + 2] == '.' && s[e + 3] == '/'
  }

  /** `\w+/\.\./` matches at `i`: a word run from `i` followed by `/../`. */
  predicate UpAt(s: string, i: nat) {
    i < |s| && IsWordChar(s[i]) && ParentAt(s, WordEnd(s, i))
  }

  /** `preg_replace('#\w+/\.\./#', '', s)`: one pass removing each match, left to right. */
  function RemoveUps(s: string): (r: string)
    ensures |r| <= |s| && (r == s || |r| < |s|)
    decreases |s|
  {
    if |s| == 0 then ""
    else if UpAt(s, 0) then RemoveUps(s[WordEnd(s, 0) + 4..])
    else
      assert s == [s[0]] + s[1..];
      [s[0]] + RemoveUps(s[1..])
  }

  lemma UpAtShift(s: string, i: nat)
    requires 0 < i && UpAt(s, i)
    ensures UpAt(s[1..], i - 1)
  {
    var e := WordEnd(s, i);
    WordEndAt(s[1..], i - 1, e - 1);
  }

  /** A pass that finds a match makes the path shorter. */
  lemma {:induction false} RemoveShrinks(s: string, i: nat)
    requires UpAt(s, i)
    ensures |RemoveUps(s)| < |s|
    decreases |s|
  {
    if !UpAt(s, 0) {
      UpAtShift(s, i);
      RemoveShrinks(s[1..], i - 1);
    }
  }

  predicate HasUp(s: string) {
    exists i :: 0 <= i < |s| && UpAt(s, i)
  }

  /** The loop as evidently intended: remove `segment/../` units until none remains. */
  function UpLevelsReduced(s: string): (r: string)
    ensures forall i: nat :: !UpAt(r, i)
    decreases |s|
  {
    if HasUp(s) then
      var i :| 0 <= i < |s| && UpAt(s, i);
      RemoveShrinks(s, i);
      UpLevelsReduced(RemoveUps(s))
    else s
  }

  /** The corrected loop: while a `segment/../` unit remains, remove every one in a pass. */
  method ReduceUpLevels(path: string) returns (r: string)
    ensures r == UpLevelsReduced(path)
    ensures forall i: nat :: !UpAt(r, i)
  {
    r := path;
    while HasUp(r)
      invariant UpLevelsReduced(r) == UpLevelsReduced(path)
      decreases |r|
    {
      var i :| 0 <= i < |r| && UpAt(r, i);
      RemoveShrinks(r, i);
      r := RemoveUps(r);
    }
  }

  /** Without a `.` there is no `segment/../` unit to remove. */
  lemma NoDotNoUp(s: string)
    requires forall k :: 0 <= k < |s| ==> s[k] != '.'
    ensures !HasUp(s)
  {
  }

  lemma {:induction false} RemoveUpsNoSlash(f: string)
    requires forall k :: 0 <= k < |f| ==> f[k] != '/'
    ensures RemoveUps(f) == f
    decreases |f|
  {
    if |f| > 0 {
      RemoveUpsNoSlash(f[1..]);
    }
  }

  /** A word run followed by a `/` that does not start `/../` passes through a pass intact. */
  lemma {:induction false} RemoveUpsWordRun(d: string, t: string)
    requires forall k :: 0 <= k < |d| ==> IsWordChar(d[k])
    requires |t| > 0 && t[0] == '/' && !ParentAt(t, 0)
    ensures RemoveUps(d + t) == d + RemoveUps(t)
    decreases |d|
  {
    if |d| == 0 {
      assert d + t == t;
    } else {
      RemoveUpsWordRun(d[1..], t);
      WordRunStep(d, t);
    }
  }

  /** One character of the run: it is kept, and the rest of the run follows. */
  lemma WordRunStep(d: string, t: string)
    requires |d| > 0 && forall k :: 0 <= k < |d| ==> IsWordChar(d[k])
    requires |t| > 0 && t[0] == '/' && !ParentAt(t, 0)
    requires RemoveUps(d[1..] + t) == d[1..] + RemoveUps(t)
    ensures RemoveUps(d + t) == d + RemoveUps(t)
  {
    NoUpBeforeSlash(d, t);
    RemoveUpsKeepsHead(d + t);
    ConcatTail(d, t);
    ConsJoin(d, RemoveUps(t));
  }

  /** Without a match at the start, a pass keeps the first character. */
  lemma RemoveUpsKeepsHead(s: string)
    requires |s| > 0 && !UpAt(s, 0)
    ensures RemoveUps(s) == [s[0]] + RemoveUps(s[1..])
  {
  }

  /** A non-empty word run ending in a `/` that does not start `/../` is no match. */
  lemma NoUpBeforeSlash(d: string, t: string)
    requires |d| > 0 && forall k :: 0 <= k < |d| ==> IsWordChar(d[k])
    requires |t| > 0 && t[0] == '/' && !ParentAt(t, 0)
    ensures !UpAt(d + t, 0)
  {
    var s := d + t;
    assert forall j :: 0 <= j < |d| ==> IsWordChar(s[j]) by {
      forall j | 0 <= j < |d| ensures IsWordChar(s[j]) {
        assert s[j] == d[j];
      }
    }
    assert s[|d|] == t[0];
    WordEndAt(s, 0, |d|);
    assert s[|d|..] == t;
  }

  /** A pass that finds `w/../` at the start drops it and carries on after it. */
  lemma RemoveUpsAtUnit(w: string, rest: string)
    requires |w| > 0 && forall k :: 0 <= k < |w| ==> IsWordChar(w[k])
    requires ParentAt(rest, 0)
    ensures RemoveUps(w + rest) == RemoveUps(rest[4..])
  {
    var u := w + rest;
    WordEndAt(u, 0, |w|);
    assert u[|w|..] == rest;
    assert ParentAt(u, |w|);
    assert u[|w| + 4..] == rest[4..];
  }

  /** A pass passes a leading `/` through. */
  lemma RemoveUpsSlash(x: string)
    ensures RemoveUps("/" + x) == "/" + RemoveUps(x)
  {
    RemoveUpsHead("/" + x);
    assert ("/" + x)[1..] == x;
  }

  lemma ParentMarker(f: string)
    ensures ParentAt("/../" + f, 0) && ("/../" + f)[4..] == f
  {
  }

  /** `w/../f` loses its `w/../` unit in a pass. */
  lemma RemoveUpsUnitAt(w: string, rest: string, f: string)
    requires |w| > 0 && forall k :: 0 <= k < |w| ==> IsWordChar(w[k])
    requires forall k :: 0 <= k < |f| ==> f[k] != '/'
    requires ParentAt(rest, 0) && rest[4..] == f
    ensures RemoveUps(w + rest) == f
  {
    RemoveUpsAtUnit(w, rest);
    RemoveUpsNoSlash(f);
  }

  /** In `d/w` followed by `/../`, the unit is found where `w` starts. */
  lemma UnitFound(d: string, w: string, rest: string)
    requires |w| > 0 && forall k :: 0 <= k < |w| ==> IsWordChar(w[k])
    requires ParentAt(rest, 0)
    ensures UpAt(d + ("/" + (w + rest)), |d| + 1)
  {
    var s := d + ("/" + (w + rest));
    var n := |d| + 1;
    assert s[n..] == w + rest;
    WordEndAt(s, n, n + |w|);
  }

  lemma ParentCancelledAt(d: string, w: string, rest: string, f: string)
    requires |w| > 0 && (forall k :: 0 <= k < |d| ==> IsWordChar(d[k]))
    requires forall k :: 0 <= k < |w| ==> IsWordChar(w[k])
    requires forall k :: 0 <= k < |f| ==> IsWordChar(f[k])
    requires ParentAt(rest, 0) && rest[4..] == f
    ensures UpLevelsReduced(d + ("/" + (w + rest))) == d + ("/" + f)
  {
    var u := w + rest;
    var s := d + ("/" + u);
    var g := d + ("/" + f);
    RemoveUpsUnitAt(w, rest, f);
    RemoveUpsSlash(u);
    SlashWordNotParent(w, rest);
    RemoveUpsWordRun(d, "/" + u);
    assert RemoveUps(s) == g;
    UnitFound(d, w, rest);
    UpLevelsOnePass(s);
    NoDotJoined(d, f);
    NoDotNoUp(g);
    UpLevelsOnePass(g);
  }

  lemma NoDotJoined(d: string, f: string)
    requires forall k :: 0 <= k < |d| ==> IsWordChar(d[k])
    requires forall k :: 0 <= k < |f| ==> IsWordChar(f[k])
    ensures forall k :: 0 <= k < |d + ("/" + f)| ==> (d + ("/" + f))[k] != '.'
  {
    var g := d + ("/" + f);
    forall k | 0 <= k < |g| ensures g[k] != '.' {
      if k < |d| {
        assert g[k] == d[k];
      } else if k > |d| {
        assert g[k] == f[k - |d| - 1];
      }
    }
  }

  lemma SlashWordNotParent(w: string, rest: string)
    requires |w| > 0 && forall k :: 0 <= k < |w| ==> IsWordChar(w[k])
    ensures !ParentAt("/" + (w + rest), 0)
  {
    assert ("/" + (w + rest))[1] == w[0];
  }

  /** With a unit present the loop makes a pass; without one it stops. */
  lemma UpLevelsOnePass(s: string)
    ensures HasUp(s) ==> UpLevelsReduced(s) == UpLevelsReduced(RemoveUps(s))
    ensures !HasUp(s) ==> UpLevelsReduced(s) == s
  {
  }

  /** One parent step between two plain names is cancelled: `d/w/../f` becomes `d/f`. */
  lemma ParentCancelled(d: string, w: string, f: string)
    requires |w| > 0 && (forall k :: 0 <= k < |d| ==> IsWordChar(d[k]))
    requires forall k :: 0 <= k < |w| ==> IsWordChar(w[k])
    requires forall k :: 0 <= k < |f| ==> IsWordChar(f[k])
    ensures UpLevelsReduced(d + ("/" + (w + ("/../" + f)))) == d + ("/" + f)
  {
    ParentMarker(f);
    ParentCancelledAt(d, w, "/../" + f, f);
  }

  // ---------------------------------------------------------------------------------------
  // The loop as written: guard `\w+\.\./`, body `\w+/\.\./`

  /** `\w+\.\./` matches at `g`: a word character directly before `../`. */
  predicate DotDotAt(s: string, g: nat) {
    g + 3 < |s| && IsWordChar(s[g]) && s[g + 1] == '.' && s[g + 2] == '.' && s[g + 3] == '/'
  }

  predicate HasDotDot(s: string) {
    exists g :: 0 <= g < |s| && DotDotAt(s, g)
  }

  /** `while (preg_match('#\w+\.\./#', p)) p = preg_replace('#\w+/\.\./#', '', p);` A pass that
      changes nothing while the guard holds repeats forever. */
  function UpLevelsAsWritten(s: string): Outcome<string>
    decreases |s|
  {
    if !HasDotDot(s) then Done(s)
    else
      var t := RemoveUps(s);
      if t == s then Diverges else UpLevelsAsWritten(t)
  }

  lemma RemoveUpsHead(t: string)
    requires |t| > 0 && !IsWordChar(t[0])
    ensures RemoveUps(t) == [t[0]] + RemoveUps(t[1..])
  {
  }

  /** A pass of the body never removes a guard match. */
  lemma {:induction false} GuardPersists(s: string, g: nat)
    requires DotDotAt(s, g)
    ensures HasDotDot(RemoveUps(s))
    decreases |s|
  {
    if UpAt(s, 0) {
      var e := WordEnd(s, 0);
      assert g >= e + 4;
      var u := s[e + 4..];
      assert DotDotAt(u, g - e - 4);
      GuardPersists(u, g - e - 4);
    } else {
      var t := s[1..];
      var r := RemoveUps(s);
      assert r == [s[0]] + RemoveUps(t);
      if g == 0 {
        RemoveUpsHead(t);
        RemoveUpsHead(t[1..]);
        RemoveUpsHead(t[1..][1..]);
        assert DotDotAt(r, 0);
      } else {
        assert DotDotAt(t, g - 1);
        GuardPersists(t, g - 1);
        var h :| 0 <= h < |RemoveUps(t)| && DotDotAt(RemoveUps(t), h);
        assert DotDotAt(r, h + 1);
      }
    }
  }

  /** The loop as written never reduces anything: without a guard match the path is returned as
      it is (so `a/b/../c` stays), and with one the loop never stops (so `a../b` hangs). */
  lemma {:induction false} AsWrittenNeverReduces(s: string)
    ensures UpLevelsAsWritten(s) == if HasDotDot(s) then Diverges else Done(s)
    decreases |s|
  {
    if HasDotDot(s) {
      var t := RemoveUps(s);
      if t != s {
        var g :| 0 <= g < |s| && DotDotAt(s, g);
        GuardPersists(s, g);
        AsWrittenNeverReduces(t);
      }
    }
  }

  /** A word directly before `../` makes the loop as written spin: `a../b` never finishes. */
  lemma AsWrittenHangs(w: string, rest: string)
    requires |w| > 0 && forall k :: 0 <= k < |w| ==> IsWordChar(w[k])
    requires |rest| >= 3 && rest[0] == '.' && rest[1] == '.' && rest[2] == '/'
    ensures UpLevelsAsWritten(w + rest) == Diverges
  {
    assert DotDotAt(w + rest, |w| - 1);
    AsWrittenNeverReduces(w + rest);
  }

  lemma NoDotDotAround(d: string, w: string, rest: string, f: string)
    requires (forall k :: 0 <= k < |d| ==> IsWordChar(d[k])) && forall k :: 0 <= k < |w| ==> IsWordChar(w[k])
    requires forall k :: 0 <= k < |f| ==> IsWordChar(f[k])
    requires ParentAt(rest, 0) && rest[4..] == f
    ensures !HasDotDot(d + ("/" + (w + rest)))
  {
    var s := d + ("/" + (w + rest));
    var b := |d| + 1 + |w|;
    assert s[b..] == rest;
    forall g | 0 <= g < |s| ensures !DotDotAt(s, g) {
      if g + 3 < |s| && s[g + 1] == '.' {
        assert g + 1 == b + 1 || g + 1 == b + 2;
      }
    }
  }

  /** The loop as written never removes a genuine parent step: `d/w/../f` is returned as it is. */
  lemma AsWrittenLeavesParent(d: string, w: string, f: string)
    requires (forall k :: 0 <= k < |d| ==> IsWordChar(d[k])) && forall k :: 0 <= k < |w| ==> IsWordChar(w[k])
    requires forall k :: 0 <= k < |f| ==> IsWordChar(f[k])
    ensures UpLevelsAsWritten(d + ("/" + (w + ("/../" + f)))) == Done(d + ("/" + (w + ("/../" + f))))
  {
    ParentMarker(f);
    NoDotDotAround(d, w, "/../" + f, f);
    AsWrittenNeverReduces(d + ("/" + (w + ("/../" + f))));
  }

  // ---------------------------------------------------------------------------------------
  // Paths the three patterns leave alone

  /** Without two slashes side by side (and so without `://`), the first pattern changes nothing. */
  lemma {:induction false} CollapseIdentity(s: string)
    requires forall i: nat :: !DoubleSlashAt(s, i)
    ensures CollapseSlashes(s) == s
    decreases |s|
  {
    if |s| > 0 {
      assert !DoubleSlashAt(s, 0) && !DoubleSlashAt(s, 1);
      forall i: nat ensures !DoubleSlashAt(s[1..], i) {
        assert !DoubleSlashAt(s, i + 1);
      }
      CollapseIdentity(s[1..]);
      assert s == [s[0]] + s[1..];
    }
  }

  /** Without a `/./`, the second pattern changes nothing. */
  lemma {:induction false} DotSlashIdentity(s: string)
    requires forall i: nat :: !DotSlashAt(s, i)
    ensures DotSlash(s) == s
    decreases |s|
  {
    if |s| > 0 {
      assert !DotSlashAt(s, 0);
      forall i: nat ensures !DotSlashAt(s[1..], i) {
        assert !DotSlashAt(s, i + 1);
      }
      DotSlashIdentity(s[1..]);
      assert s == [s[0]] + s[1..];
    }
  }

  /** Without a backslash, the third pattern changes nothing. */
  lemma {:induction false} DoublingIdentity(s: string)
    requires forall k :: 0 <= k < |s| ==> s[k] != '\\'
    ensures DoubleBackslashes(s) == s
    decreases |s|
  {
    if |s| > 0 {
      DoublingIdentity(s[1..]);
      assert s == [s[0]] + s[1..];
    }
  }

  lemma NormalizedIdentity(s: string)
    requires forall i: nat :: !DoubleSlashAt(s, i)
    requires forall i: nat :: !DotSlashAt(s, i)
    requires forall k :: 0 <= k < |s| ==> s[k] != '\\'
    ensures Normalized(s) == s
  {
    CollapseIdentity(s);
    DotSlashIdentity(s);
    DoublingIdentity(s);
  }

  predicate IsWord(w: string) {
    forall k :: 0 <= k < |w| ==> IsWordChar(w[k])
  }

  /** Where the slashes and dots of `d/w/../f` are. */
  lemma ParentPathChars(d: string, w: string, f: string)
    requires IsWord(d) && IsWord(w) && IsWord(f)
    ensures var s := d + ("/" + (w + ("/../" + f)));
            var b := |d| + 1 + |w|;
            forall k :: 0 <= k < |s| ==>
              (s[k] == '/' ==> k == |d| || k == b || k == b + 3) &&
              (s[k] == '.' ==> k == b + 1 || k == b + 2) && s[k] != '\\'
  {
    var s := d + ("/" + (w + ("/../" + f)));
    var b := |d| + 1 + |w|;
    forall k | 0 <= k < |s|
      ensures (s[k] == '/' ==> k == |d| || k == b || k == b + 3) &&
              (s[k] == '.' ==> k == b + 1 || k == b + 2) && s[k] != '\\'
    {
      if k < |d| {
        assert s[k] == d[k];
      } else if |d| < k < b {
        assert s[k] == w[k - |d| - 1];
      } else if k > b + 3 {
        assert s[k] == f[k - b - 4];
      }
    }
  }

  /** `d/w/../f` with plain words passes the three patterns unchanged. */
  lemma ParentPathNormal(d: string, w: string, f: string)
    requires IsWord(d) && IsWord(w) && IsWord(f) && |w| > 0
    ensures Normalized(d + ("/" + (w + ("/../" + f)))) == d + ("/" + (w + ("/../" + f)))
  {
    ParentPathChars(d, w, f);
    NormalizedIdentity(d + ("/" + (w + ("/../" + f))));
  }

  /** Where the slash and dots of `w../f` are. */
  lemma WordDotDotChars(w: string, f: string)
    requires IsWord(w) && IsWord(f)
    ensures var s := w + ("../" + f);
            forall k :: 0 <= k < |s| ==>
              (s[k] == '/' ==> k == |w| + 2) && (s[k] == '.' ==> k == |w| || k == |w| + 1) &&
              s[k] != '\\'
  {
    var s := w + ("../" + f);
    forall k | 0 <= k < |s|
      ensures (s[k] == '/' ==> k == |w| + 2) && (s[k] == '.' ==> k == |w| || k == |w| + 1) &&
              s[k] != '\\'
    {
      if k < |w| {
        assert s[k] == w[k];
      } else if k > |w| + 2 {
        assert s[k] == f[k - |w| - 3];
      }
    }
  }

  /** `w../f` with plain words passes the three patterns unchanged, and the guard of the loop as
      written matches it. */
  lemma WordDotDotNormal(w: string, f: string)
    requires IsWord(w) && IsWord(f) && |w| > 0
    ensures Normalized(w + ("../" + f)) == w + ("../" + f)
    ensures HasDotDot(w + ("../" + f))
  {
    var s := w + ("../" + f);
    WordDotDotChars(w, f);
    NormalizedIdentity(s);
    assert DotDotAt(s, |w| - 1);
  }
}
