/**
 * The few Python string operations the converter relies on, written out:
 * prefix tests, `split`, `join`, `strip`, `partition`, and the ordering
 * `sorted` uses. Strings are sequences of Unicode scalar values, as Python's
 * `str` is a sequence of code points.
 */
module Text {
  import opened Wrappers

  /** `s.startswith(prefix)` */
  predicate StartsWith(s: string, prefix: string) {
    |prefix| <= |s| && s[..|prefix|] == prefix
  }

  /** A decimal digit, as the source's regular expressions use `\d`. */
  predicate IsDigit(c: char) {
    '0' <= c <= '9'
  }

  /** The whole of `s` matches `\d+`. */
  predicate IsDigits(s: string) {
    |s| > 0 && forall i :: 0 <= i < |s| ==> IsDigit(s[i])
  }

  /** Position of the first `c` in `s`. */
  function IndexOf(s: string, c: char): (r: Option<nat>)
    ensures r.None? <==> c !in s
    ensures r.Some? ==> r.value < |s| && s[r.value] == c && c !in s[..r.value]
  {
    if |s| == 0 then None
    else if s[0] == c then Some(0)
    else
      match IndexOf(s[1..], c)
      case None => assert s == [s[0]] + s[1..]; None
      case Some(i) => assert s[..i + 1] == [s[0]] + s[1..][..i]; Some(i + 1)
  }

  /** Position of the last `c` in `s`. */
  function LastIndexOf(s: string, c: char): (r: Option<nat>)
    ensures r.None? <==> c !in s
    ensures r.Some? ==> r.value < |s| && s[r.value] == c && c !in s[r.value + 1..]
  {
    if |s| == 0 then None
    else if s[|s| - 1] == c then Some(|s| - 1)
    else
      var front := s[..|s| - 1];
      assert s == front + [s[|s| - 1]];
      match LastIndexOf(front, c)
      case None => None
      case Some(i) => assert s[i + 1..] == front[i + 1..] + [s[|s| - 1]]; Some(i)
  }

  /** `s.split(c, 1)[0]`: the text before the first `c`, or all of `s`. */
  function Before(s: string, c: char): (r: string)
    ensures StartsWith(s, r) && c !in r
    ensures |r| < |s| ==> s[|r|] == c
    ensures c !in s ==> r == s
  {
    match IndexOf(s, c)
    case None => s
    case Some(i) => s[..i]
  }

  /** `s.partition(c)[2]`: the text after the first `c`, or "" when `c` does not occur. */
  function After(s: string, c: char): (r: string)
    ensures c in s ==> s == Before(s, c) + [c] + r
    ensures c !in s ==> r == ""
  {
    match IndexOf(s, c)
    case None => ""
    case Some(i) => assert s == s[..i] + [c] + s[i + 1..]; s[i + 1..]
  }

  /** `sep` occurs in `s` starting at position `k`. */
  predicate OccursAt(s: string, sep: string, k: nat) {
    k + |sep| <= |s| && s[k..k + |sep|] == sep
  }

  lemma OccursShift(s: string, sep: string, k: nat)
    requires |s| > 0
    ensures OccursAt(s, sep, k + 1) <==> OccursAt(s[1..], sep, k)
  {
    if k + 1 + |sep| <= |s| {
      assert s[k + 1..k + 1 + |sep|] == s[1..][k..k + |sep|];
    }
  }

  /** If `sep` is not a prefix of `s`, occurrences in `s` are those in `s[1..]`, one place further on. */
  lemma OccursShiftAll(s: string, sep: string)
    requires |s| > 0 && !OccursAt(s, sep, 0)
    ensures forall k: nat :: OccursAt(s, sep, k) ==> k > 0 && OccursAt(s[1..], sep, k - 1)
    ensures forall k: nat :: OccursAt(s[1..], sep, k) ==> OccursAt(s, sep, k + 1)
  {
    forall k: nat | OccursAt(s, sep, k) ensures k > 0 && OccursAt(s[1..], sep, k - 1) {
      OccursShift(s, sep, k - 1);
    }
    forall k: nat | OccursAt(s[1..], sep, k) ensures OccursAt(s, sep, k + 1) {
      OccursShift(s, sep, k);
    }
  }

  /** `s.find(sep)`: the first position at which `sep` occurs in `s`. */
  function Find(s: string, sep: string): (r: Option<nat>)
    requires sep != ""
    ensures r.Some? ==> OccursAt(s, sep, r.value)
    decreases |s|
  {
    if |s| < |sep| then None
    else if s[..|sep|] == sep then Some(0)
    else
      match Find(s[1..], sep)
      case None => None
      case Some(i) => Some(i + 1)
  }

  /** Find yields the first occurrence of `sep`, and None only when `sep` does not occur. */
  lemma {:induction false} FindSpec(s: string, sep: string)
    requires sep != ""
    ensures Find(s, sep).Some? ==> forall k: nat :: k < Find(s, sep).value ==> !OccursAt(s, sep, k)
    ensures Find(s, sep).None? ==> forall k: nat :: !OccursAt(s, sep, k)
    decreases |s|
  {
    if |s| >= |sep| && s[..|sep|] != sep {
      assert !OccursAt(s, sep, 0);
      OccursShiftAll(s, sep);
      FindSpec(s[1..], sep);
    }
  }

  /** `s.split(sep)`: the pieces between the occurrences of `sep`, found left to right. */
  function Split(s: string, sep: string): (r: seq<string>)
    requires sep != ""
    ensures |r| >= 1
    decreases |s|
  {
    match Find(s, sep)
    case None => [s]
    case Some(i) => [s[..i]] + Split(s[i + |sep|..], sep)
  }

  /** For a one-character separator, Find is IndexOf. */
  lemma {:induction false} FindChar(s: string, c: char)
    ensures Find(s, [c]) == IndexOf(s, c)
    decreases |s|
  {
    if |s| > 0 {
      assert s[..1] == [s[0]];
      if s[0] != c {
        FindChar(s[1..], c);
      }
    }
  }

  /** `s.split(c)[0]` is the text before the first `c`. */
  lemma SplitFirstChar(s: string, c: char)
    ensures Split(s, [c])[0] == Before(s, c)
  {
    FindChar(s, c);
  }

  /** A character separator never occurs inside one of the pieces it splits into. */
  lemma {:induction false} SplitPiecesAvoid(s: string, c: char)
    ensures forall p :: p in Split(s, [c]) ==> c !in p
    decreases |s|
  {
    FindSpec(s, [c]);
    match Find(s, [c])
    case None =>
      forall k | 0 <= k < |s| ensures s[k] != c {
        assert !OccursAt(s, [c], k);
        assert s[k..k + 1] == [s[k]];
      }
    case Some(i) =>
      forall k | 0 <= k < i ensures s[k] != c {
        assert !OccursAt(s, [c], k);
        assert s[k..k + 1] == [s[k]];
      }
      assert forall k :: 0 <= k < i ==> s[..i][k] == s[k];
      SplitPiecesAvoid(s[i + 1..], c);
  }

  /** `sep.join(parts)` */
  function Join(parts: seq<string>, sep: string): string {
    if |parts| == 0 then ""
    else if |parts| == 1 then parts[0]
    else parts[0] + sep + Join(parts[1..], sep)
  }

  /** Joining the pieces of a split gives back the string that was split. */
  lemma {:induction false} JoinSplit(s: string, sep: string)
    requires sep != ""
    ensures Join(Split(s, sep), sep) == s
    decreases |s|
  {
    match Find(s, sep)
    case None =>
    case Some(i) =>
      var rest := s[i + |sep|..];
      JoinSplit(rest, sep);
      JoinCons(s[..i], Split(rest, sep), sep);
      Reassemble(s, i, i + |sep|);
  }

  /** Cutting a string twice and putting the three pieces back together gives the string. */
  lemma Reassemble(s: string, i: nat, j: nat)
    requires i <= j <= |s|
    ensures s == s[..i] + s[i..j] + s[j..]
  {
  }

  /** Joining a part in front of a non-empty list puts the separator between them. */
  lemma JoinCons(p: string, parts: seq<string>, sep: string)
    requires |parts| > 0
    ensures Join([p] + parts, sep) == p + sep + Join(parts, sep)
  {
    assert ([p] + parts)[1..] == parts;
  }

  /**
   * Splitting a joined list gives back the list, provided the first character
   * of the separator occurs in no part.
   */
  lemma {:induction false} SplitJoin(parts: seq<string>, sep: string)
    requires sep != "" && |parts| > 0
    requires forall p :: p in parts ==> sep[0] !in p
    ensures Split(Join(parts, sep), sep) == parts
  {
    var p := parts[0];
    assert sep[0] !in p by { assert p in parts; }
    assert forall k :: 0 <= k < |p| ==> p[k] != sep[0];
    if |parts| == 1 {
      FindAfterPart(p, sep, "");
      assert p + "" == p;
    } else {
      var rest := Join(parts[1..], sep);
      var s := p + sep + rest;
      FindAfterPart(p, sep, sep + rest);
      assert p + (sep + rest) == s;
      assert s[..|p|] == p && s[|p| + |sep|..] == rest;
      SplitJoin(parts[1..], sep);
      assert parts == [p] + parts[1..];
    }
  }

  /**
   * In `p + t`, where `p` does not hold the first character of `sep`, the
   * first occurrence of `sep` is the first one in `t`, shifted by `|p|`.
   */
  lemma {:induction false} FindAfterPart(p: string, sep: string, t: string)
    requires sep != "" && forall k :: 0 <= k < |p| ==> p[k] != sep[0]
    ensures Find(p + t, sep) == match Find(t, sep) case None => None case Some(i) => Some(|p| + i)
    decreases |p|
  {
    if p == [] {
      assert p + t == t;
    } else {
      var s := p + t;
      FindSkip(s, sep);
      assert s[1..] == p[1..] + t;
      FindAfterPart(p[1..], sep, t);
    }
  }

  /** A string whose first character does not start `sep` is searched from its second character on. */
  lemma FindSkip(s: string, sep: string)
    requires sep != "" && |s| > 0 && s[0] != sep[0]
    ensures Find(s, sep) == match Find(s[1..], sep) case None => None case Some(i) => Some(i + 1)
  {
    if |sep| <= |s| {
      assert s[..|sep|][0] == s[0];
    }
  }

  /** The characters `str.strip()` removes: those for which Python's `str.isspace()` holds. */
  predicate IsSpace(c: char) {
    || c == ' ' || '\t' <= c <= '\r' || '\U{1C}' <= c <= '\U{1F}'
    || c == '\U{85}' || c == '\U{A0}' || c == '\U{1680}' || '\U{2000}' <= c <= '\U{200A}'
    || c == '\U{2028}' || c == '\U{2029}' || c == '\U{202F}' || c == '\U{205F}' || c == '\U{3000}'
  }

  /** `s.lstrip()` */
  function TrimStart(s: string): (r: string)
    ensures |r| <= |s| && r == s[|s| - |r|..]
    ensures forall i :: 0 <= i < |s| - |r| ==> IsSpace(s[i])
    ensures r == [] || !IsSpace(r[0])
  {
    if |s| > 0 && IsSpace(s[0]) then TrimStart(s[1..]) else s
  }

  /** `s.rstrip()` */
  function TrimEnd(s: string): (r: string)
    ensures |r| <= |s| && r == s[..|r|]
    ensures forall i :: |r| <= i < |s| ==> IsSpace(s[i])
    ensures r == [] || !IsSpace(r[|r| - 1])
  {
    if |s| > 0 && IsSpace(s[|s| - 1]) then TrimEnd(s[..|s| - 1]) else s
  }

  /** `s.strip()` */
  function Strip(s: string): string {
    TrimEnd(TrimStart(s))
  }

  /** Neither end of `s` is whitespace. */
  predicate Stripped(s: string) {
    s == [] || (!IsSpace(s[0]) && !IsSpace(s[|s| - 1]))
  }

  /** `strip()` leaves a part of its argument with no whitespace at either end. */
  lemma StripIsStripped(s: string)
    ensures Stripped(Strip(s))
    ensures forall c :: c in Strip(s) ==> c in s
  {
    var t := TrimStart(s);
    var r := TrimEnd(t);
    if r != [] {
      assert r[0] == t[0];
    }
    assert forall c :: c in r ==> c in t;
    assert forall c :: c in t ==> c in s;
  }

  /** Joining with `", "` is joining with `","` after a space is put in front of all but the first part. */
  function Spaced(parts: seq<string>): (r: seq<string>)
    requires |parts| > 0
    ensures |r| == |parts| && r[0] == parts[0]
    ensures forall k :: 0 < k < |parts| ==> r[k] == " " + parts[k]
  {
    [parts[0]] + seq(|parts| - 1, k requires 0 <= k < |parts| - 1 => " " + parts[k + 1])
  }

  lemma {:induction false} JoinSpaced(parts: seq<string>)
    requires |parts| > 0
    ensures Join(parts, ", ") == Join(Spaced(parts), ",")
    decreases |parts|
  {
    if |parts| > 1 {
      var tail := parts[1..];
      JoinSpaced(tail);
      var sp := Spaced(parts);
      assert sp[1..] == [" " + tail[0]] + Spaced(tail)[1..];
      if |tail| == 1 {
        assert Join(sp[1..], ",") == " " + tail[0];
      } else {
        assert Join(sp[1..], ",") == " " + Join(Spaced(tail), ",");
      }
    }
  }

  /** A stripped string with whitespace in front of it strips back to itself. */
  lemma {:induction false} StripAfterSpaces(w: string, x: string)
    requires forall i :: 0 <= i < |w| ==> IsSpace(w[i])
    requires Stripped(x)
    ensures Strip(w + x) == x
    decreases |w|
  {
    if |w| == 0 {
      assert w + x == x;
      if x != [] {
        assert TrimStart(x) == x;
        assert TrimEnd(x) == x;
      }
    } else {
      assert (w + x)[1..] == w[1..] + x;
      StripAfterSpaces(w[1..], x);
    }
  }

  /** Python's `<` on strings: lexicographic by code point, a proper prefix first. */
  predicate Less(a: string, b: string)
    decreases |a|
  {
    if |a| == 0 then |b| > 0
    else if |b| == 0 then false
    else a[0] < b[0] || (a[0] == b[0] && Less(a[1..], b[1..]))
  }

  lemma {:induction false} LessIrreflexive(a: string)
    ensures !Less(a, a)
    decreases |a|
  {
    if |a| > 0 { LessIrreflexive(a[1..]); }
  }

  lemma {:induction false} LessTransitive(a: string, b: string, c: string)
    requires Less(a, b) && Less(b, c)
    ensures Less(a, c)
    decreases |a|
  {
    if |a| > 0 && a[0] == b[0] == c[0] {
      LessTransitive(a[1..], b[1..], c[1..]);
    }
  }

  lemma {:induction false} LessTotal(a: string, b: string)
    ensures a == b || Less(a, b) || Less(b, a)
    decreases |a|
  {
    if |a| > 0 && |b| > 0 && a[0] == b[0] {
      LessTotal(a[1..], b[1..]);
      if a[1..] == b[1..] {
        assert a == [a[0]] + a[1..] && b == [b[0]] + b[1..];
      }
    }
  }

  /** `m` is the smallest element of `s`. */
  predicate IsLeast(m: string, s: set<string>) {
    m in s && forall x :: x in s && x != m ==> Less(m, x)
  }

  lemma {:induction false} LeastExists(s: set<string>)
    requires s != {}
    ensures exists m :: IsLeast(m, s)
    decreases |s|
  {
    var x :| x in s;
    if s == {x} {
      assert IsLeast(x, s);
    } else {
      LeastExists(s - {x});
      var m :| IsLeast(m, s - {x});
      LessTotal(x, m);
      if Less(x, m) {
        forall y | y in s && y != x ensures Less(x, y) {
          if y != m { LessTransitive(x, m, y); }
        }
        assert IsLeast(x, s);
      } else {
        assert IsLeast(m, s);
      }
    }
  }

  lemma LeastUnique(s: set<string>)
    ensures forall m, n :: IsLeast(m, s) && IsLeast(n, s) ==> m == n
  {
    forall m, n | IsLeast(m, s) && IsLeast(n, s) ensures m == n {
      if m != n {
        LessTransitive(m, n, m);
        LessIrreflexive(m);
      }
    }
  }

  /** Strictly increasing under Python's string order. */
  predicate StrictlySorted(r: seq<string>) {
    forall i, j :: 0 <= i < j < |r| ==> Less(r[i], r[j])
  }

  /** `sorted(s)` for a set of strings. */
  function SortedElements(s: set<string>): (r: seq<string>)
    ensures |r| == |s| && StrictlySorted(r)
    ensures forall x :: x in r <==> x in s
    decreases |s|
  {
    if s == {} then []
    else
      LeastExists(s);
      LeastUnique(s);
      var m :| IsLeast(m, s);
      var rest := SortedElements(s - {m});
      assert forall j :: 0 <= j < |rest| ==> rest[j] in s - {m};
      [m] + rest
  }

  /** A sorted listing of a set is the only one: any strictly increasing listing of `s` is `sorted(s)`. */
  lemma {:induction false} SortedListingUnique(r: seq<string>, s: set<string>)
    requires StrictlySorted(r)
    requires forall x :: x in r <==> x in s
    ensures r == SortedElements(s)
    decreases |r|
  {
    var t := SortedElements(s);
    if r == [] {
      assert s == {};
    } else {
      assert r[0] in s;
      HeadIsLeast(r, s);
      HeadIsLeast(t, s);
      LeastUnique(s);
      var m := r[0];
      TailListing(r, s);
      SortedListingUnique(r[1..], s - {m});
      assert t == [t[0]] + SortedElements(s - {t[0]});
      assert r == [m] + r[1..];
    }
  }

  /** The first element of a strictly increasing listing of `s` is the least element of `s`. */
  lemma HeadIsLeast(r: seq<string>, s: set<string>)
    requires StrictlySorted(r) && r != []
    requires forall x :: x in r <==> x in s
    ensures IsLeast(r[0], s)
  {
    forall x | x in s && x != r[0] ensures Less(r[0], x) {
      var j :| 0 <= j < |r| && r[j] == x;
    }
  }

  /** The rest of a strictly increasing listing of `s` lists the rest of `s`. */
  lemma TailListing(r: seq<string>, s: set<string>)
    requires StrictlySorted(r) && r != []
    requires forall x :: x in r <==> x in s
    ensures StrictlySorted(r[1..])
    ensures forall x :: x in r[1..] <==> x in s - {r[0]}
  {
    var m := r[0];
    forall x ensures x in r[1..] <==> x in s - {m} {
      if x in r[1..] {
        var j :| 1 <= j < |r| && r[j] == x;
        LessIrreflexive(m);
      }
      if x in s - {m} {
        var j :| 0 <= j < |r| && r[j] == x;
        assert r[1..][j - 1] == x;
      }
    }
  }

  /** `"; ".join(sorted(s)) if s else ""`, the form result cells take for several identifiers. */
  function JoinSorted(s: set<string>): string {
    if s == {} then "" else Join(SortedElements(s), "; ")
  }
}
