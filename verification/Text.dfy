/** Strings as the controller uses them: splitting and joining at a separator,
    the byte-wise order of Go's `<`, and the result of `sort.Strings`. */
module Text {

  /** `strings.Split(s, c)` for a one-character separator. */
  function Split(s: string, c: char): (parts: seq<string>)
    ensures |parts| >= 1
  {
    if s == "" then [""]
    else
      var rest := Split(s[1..], c);
      if s[0] == c then [""] + rest
      else [[s[0]] + rest[0]] + rest[1..]
  }

  /** `strings.Join(parts, c)`. */
  function Join(parts: seq<string>, c: char): string
  {
    if |parts| == 0 then ""
    else if |parts| == 1 then parts[0]
    else parts[0] + [c] + Join(parts[1..], c)
  }

  lemma {:induction false} SplitParts(s: string, c: char)
    ensures forall i :: 0 <= i < |Split(s, c)| ==> c !in Split(s, c)[i]
    ensures Join(Split(s, c), c) == s
  {
    if s != "" {
      SplitParts(s[1..], c);
      var rest := Split(s[1..], c);
      if s[0] == c {
        assert Split(s, c)[1..] == rest;
      } else {
        assert Split(s, c)[1..] == rest[1..];
        assert s == [s[0]] + s[1..];
        if |rest| > 1 {
          assert Join(rest, c) == rest[0] + [c] + Join(rest[1..], c);
          assert [s[0]] + rest[0] + [c] + Join(rest[1..], c) == [s[0]] + Join(rest, c);
        }
      }
    }
  }

  lemma {:induction false} SplitNoSeparator(s: string, c: char)
    requires c !in s
    ensures Split(s, c) == [s]
  {
    if s != "" {
      SplitNoSeparator(s[1..], c);
      assert s == [s[0]] + s[1..];
    }
  }

  lemma {:induction false} SplitPrefix(p: string, s: string, c: char)
    requires c !in p
    ensures Split(p + [c] + s, c) == [p] + Split(s, c)
  {
    var whole := p + [c] + s;
    if p == "" {
      assert whole[1..] == s;
    } else {
      SplitPrefix(p[1..], s, c);
      assert whole[1..] == p[1..] + [c] + s;
      assert p == [p[0]] + p[1..];
    }
  }

  /** Splitting undoes joining exactly on parts free of the separator. */
  lemma {:induction false} SplitJoin(parts: seq<string>, c: char)
    requires |parts| >= 1
    ensures Split(Join(parts, c), c) == parts
        <==> forall i :: 0 <= i < |parts| ==> c !in parts[i]
  {
    if forall i :: 0 <= i < |parts| ==> c !in parts[i] {
      SplitJoinClean(parts, c);
    } else {
      SplitParts(Join(parts, c), c);
    }
  }

  lemma {:induction false} SplitJoinClean(parts: seq<string>, c: char)
    requires |parts| >= 1
    requires forall i :: 0 <= i < |parts| ==> c !in parts[i]
    ensures Split(Join(parts, c), c) == parts
  {
    if |parts| == 1 {
      SplitNoSeparator(parts[0], c);
    } else {
      SplitJoinClean(parts[1..], c);
      SplitPrefix(parts[0], Join(parts[1..], c), c);
      assert parts == [parts[0]] + parts[1..];
    }
  }

  /** Go's `a < b` on strings. */
  predicate Less(a: string, b: string)
  {
    b != "" && (a == "" || a[0] < b[0] || (a[0] == b[0] && Less(a[1..], b[1..])))
  }

  lemma {:induction false} LessTotal(a: string, b: string)
    ensures Less(a, b) || a == b || Less(b, a)
    ensures !(Less(a, b) && Less(b, a))
    ensures a == b ==> !Less(a, b)
  {
    if a != "" && b != "" {
      LessTotal(a[1..], b[1..]);
      assert a == [a[0]] + a[1..] && b == [b[0]] + b[1..];
    }
  }

  /** `a` and `b` agree on the first n characters, and there `a` ends or has the smaller one. */
  ghost predicate LessAfter(a: string, b: string, n: nat) {
    n <= |a| && n < |b| && a[..n] == b[..n] && (n == |a| || a[n] < b[n])
  }

  lemma SameFirst(a: string, b: string, n: nat)
    requires LessAfter(a, b, n)
    ensures n > 0 ==> a != "" && a[0] == b[0]
  {
    if n > 0 {
      assert a[0] == a[..n][0] && b[0] == b[..n][0];
    }
  }

  /** A proper prefix comes first, and otherwise the first difference decides upwards. */
  lemma {:induction false} LessMeans(a: string, b: string)
    ensures Less(a, b) <==> exists n: nat :: LessAfter(a, b, n)
  {
    if b == "" || a == "" || a[0] != b[0] {
      if Less(a, b) { assert LessAfter(a, b, 0); }
      if n: nat :| LessAfter(a, b, n) {
        SameFirst(a, b, n);
      }
    } else {
      LessMeans(a[1..], b[1..]);
      if n: nat :| LessAfter(a[1..], b[1..], n) {
        assert a[..n + 1] == [a[0]] + a[1..][..n] && b[..n + 1] == [b[0]] + b[1..][..n];
        assert LessAfter(a, b, n + 1);
      }
      if n: nat :| LessAfter(a, b, n) {
        assert a[1..][..n - 1] == a[..n][1..] && b[1..][..n - 1] == b[..n][1..];
        assert LessAfter(a[1..], b[1..], n - 1);
      }
    }
  }

  lemma {:induction false} LessTransitive(a: string, b: string, c: string)
    requires Less(a, b) && Less(b, c)
    ensures Less(a, c)
  {
    if a != "" && a[0] == b[0] == c[0] {
      LessTransitive(a[1..], b[1..], c[1..]);
    }
  }

  /** `a <= b`. */
  predicate AtMost(a: string, b: string)
  {
    !Less(b, a)
  }

  lemma AtMostTransitive(a: string, b: string, c: string)
    requires AtMost(a, b) && AtMost(b, c)
    ensures AtMost(a, c)
  {
    LessTotal(a, b);
    LessTotal(b, c);
    LessTotal(a, c);
    if Less(c, a) && a != b && b != c {
      LessTransitive(a, b, c);
    }
  }

  ghost predicate Sorted(s: seq<string>)
  {
    forall i, j :: 0 <= i < j < |s| ==> AtMost(s[i], s[j])
  }

  ghost predicate Distinct<T>(s: seq<T>)
  {
    forall i, j :: 0 <= i < j < |s| ==> s[i] != s[j]
  }

  function Insert(x: string, s: seq<string>): (r: seq<string>)
    ensures multiset(r) == multiset(s) + multiset{x}
  {
    if s == [] || AtMost(x, s[0]) then [x] + s
    else
      assert s == [s[0]] + s[1..];
      [s[0]] + Insert(x, s[1..])
  }

  lemma {:induction false} InsertSorted(x: string, s: seq<string>)
    requires Sorted(s)
    ensures Sorted(Insert(x, s))
  {
    var r := Insert(x, s);
    if s == [] {
    } else if AtMost(x, s[0]) {
      forall j | 0 <= j < |s| ensures AtMost(x, s[j]) {
        if j > 0 { AtMostTransitive(x, s[0], s[j]); }
      }
    } else {
      var rest := Insert(x, s[1..]);
      InsertSorted(x, s[1..]);
      LessTotal(x, s[0]);
      forall j | 0 <= j < |rest| ensures AtMost(s[0], rest[j]) {
        assert rest[j] in multiset(rest);
        assert rest[j] in multiset(s[1..]) + multiset{x};
        if rest[j] != x {
          assert rest[j] in s[1..];
        }
      }
    }
  }

  /** The result of `sort.Strings(s)`. */
  function SortStrings(s: seq<string>): (r: seq<string>)
    ensures multiset(r) == multiset(s)
  {
    if s == [] then []
    else
      assert s == [s[0]] + s[1..];
      Insert(s[0], SortStrings(s[1..]))
  }

  lemma {:induction false} SortStringsSorted(s: seq<string>)
    ensures Sorted(SortStrings(s))
  {
    if s != [] {
      SortStringsSorted(s[1..]);
      InsertSorted(s[0], SortStrings(s[1..]));
    }
  }

  /** A sorted arrangement is unique, so the order in which the elements were
      collected does not matter. */
  lemma {:induction false} SortedUnique(a: seq<string>, b: seq<string>)
    requires Sorted(a) && Sorted(b) && multiset(a) == multiset(b)
    ensures a == b
  {
    assert |a| == |multiset(a)| == |multiset(b)| == |b|;
    if a != [] {
      SameHead(a, b);
      assert a == [a[0]] + a[1..] && b == [b[0]] + b[1..];
      assert multiset(a[1..]) == multiset(a) - multiset{a[0]};
      assert multiset(b[1..]) == multiset(b) - multiset{b[0]};
      SortedUnique(a[1..], b[1..]);
    }
  }

  lemma SameHead(a: seq<string>, b: seq<string>)
    requires Sorted(a) && Sorted(b) && multiset(a) == multiset(b)
    requires a != [] && b != []
    ensures a[0] == b[0]
  {
    assert a[0] in multiset(b) && b[0] in multiset(a);
    var i :| 0 <= i < |b| && b[i] == a[0];
    var j :| 0 <= j < |a| && a[j] == b[0];
    LessTotal(a[0], b[0]);
  }

  /** `r` is the strictly increasing list of the elements of `s`. */
  ghost predicate SortedListOf(r: seq<string>, s: set<string>)
  {
    Sorted(r) && Distinct(r) && forall x :: x in r <==> x in s
  }

  lemma SortedListUnique(a: seq<string>, b: seq<string>, s: set<string>)
    requires SortedListOf(a, s) && SortedListOf(b, s)
    ensures a == b
  {
    DistinctMultiset(a, s);
    DistinctMultiset(b, s);
    SortedUnique(a, b);
  }

  lemma {:induction false} DistinctMultiset<T>(a: seq<T>, s: set<T>)
    requires Distinct(a) && forall x :: x in a <==> x in s
    ensures multiset(a) == multiset(s)
  {
    if a == [] {
      assert s == {};
    } else {
      assert a == [a[0]] + a[1..];
      forall x ensures x in a[1..] <==> x in s - {a[0]} {
        if x in a[1..] { assert x in a; }
      }
      DistinctMultiset(a[1..], s - {a[0]});
    }
  }

  lemma {:induction false} MultisetDistinct<T>(a: seq<T>, s: set<T>)
    requires multiset(a) == multiset(s)
    ensures Distinct(a) && forall x :: x in a <==> x in s
  {
    forall x ensures x in a <==> x in s {
      assert x in multiset(a) <==> x in a;
    }
    forall i, j | 0 <= i < j < |a| ensures a[i] != a[j] {
      if a[i] == a[j] {
        DuplicateCount(a, i, j);
      }
    }
  }

  lemma DuplicateCount<T>(a: seq<T>, i: nat, j: nat)
    requires i < j < |a| && a[i] == a[j]
    ensures multiset(a)[a[i]] >= 2
  {
    assert a == a[..i] + [a[i]] + a[i+1..j] + [a[j]] + a[j+1..];
  }

  /** Sorting any listing of a set gives the one sorted list of that set. */
  lemma SortStringsOfSet(listing: seq<string>, s: set<string>)
    requires Distinct(listing) && forall x :: x in listing <==> x in s
    ensures SortedListOf(SortStrings(listing), s)
  {
    SortStringsSorted(listing);
    DistinctMultiset(listing, s);
    MultisetDistinct(SortStrings(listing), s);
  }

  lemma {:induction false} SortedListExists(s: set<string>)
    ensures exists r :: SortedListOf(r, s)
  {
    var listing := Listing(s);
    SortStringsOfSet(listing, s);
  }

  ghost function Listing(s: set<string>): (r: seq<string>)
    ensures Distinct(r) && forall x :: x in r <==> x in s
  {
    if s == {} then []
    else
      var x :| x in s;
      Listing(s - {x}) + [x]
  }

  predicate HasPrefix(s: string, p: string)
  {
    p <= s
  }

  predicate HasSuffix(s: string, t: string)
  {
    |t| <= |s| && s[|s| - |t|..] == t
  }

  lemma PrefixMeans(s: string, p: string)
    ensures HasPrefix(s, p) <==> exists rest: string :: s == p + rest
  {
    if HasPrefix(s, p) { assert s == p + s[|p|..]; }
  }

  lemma SuffixMeans(s: string, t: string)
    ensures HasSuffix(s, t) <==> exists rest: string :: s == rest + t
  {
    if HasSuffix(s, t) { assert s == s[..|s| - |t|] + t; }
  }
}
