/** Parent references of a route: their string keys and the order statuses are sorted in. */
module ParentRefs {
  import opened Wrappers
  import opened Text

  datatype ParentRef = ParentRef(group: Option<string>, kind: Option<string>, ns: Option<string>, name: string,
                                 section: Option<string>, port: Option<int>)

  // ---- keys

  function StrPtrToString(p: Option<string>): string {
    if p == None then "_" else p.value
  }

  function StringToPtr(s: string): Option<string> {
    if s == "_" then None else Some(s)
  }

  function Parts(r: ParentRef): seq<string> {
    [StrPtrToString(r.group), StrPtrToString(r.kind), StrPtrToString(r.ns), r.name, StrPtrToString(r.section)]
  }

  function ParentRefToKey(r: ParentRef): string {
    Join(Parts(r), ':')
  }

  function KeyToParentRef(key: string): Option<ParentRef> {
    var parts := Split(key, ':');
    if |parts| != 5 then None
    else Some(ParentRef(StringToPtr(parts[0]), StringToPtr(parts[1]), StringToPtr(parts[2]), parts[3], StringToPtr(parts[4]), None))
  }

  /** Every key of five parts is the key of the reference it stands for. */
  lemma KeyRoundTrip(key: string)
    ensures KeyToParentRef(key) != None <==> |Split(key, ':')| == 5
    ensures KeyToParentRef(key) != None ==> ParentRefToKey(KeyToParentRef(key).value) == key
  {
    if KeyToParentRef(key) != None {
      SplitParts(key, ':');
      assert Parts(KeyToParentRef(key).value) == Split(key, ':');
    }
  }

  ghost predicate PlainField(p: Option<string>) {
    p != Some("_") && (p != None ==> ':' !in p.value)
  }

  /** What a key keeps: no colons, no placeholder used as a value, and no port. */
  ghost predicate Plain(r: ParentRef) {
    PlainField(r.group) && PlainField(r.kind) && PlainField(r.ns) && ':' !in r.name && PlainField(r.section) && r.port == None
  }

  lemma PtrRoundTrip(p: Option<string>)
    ensures StringToPtr(StrPtrToString(p)) == p <==> p != Some("_")
    ensures PlainField(p) <==> p != Some("_") && ':' !in StrPtrToString(p)
  {}

  /** A reference survives its key exactly when it is plain. */
  lemma RefRoundTrip(r: ParentRef)
    ensures KeyToParentRef(ParentRefToKey(r)) == Some(r) <==> Plain(r)
  {
    SplitJoin(Parts(r), ':');
    PtrRoundTrip(r.group);
    PtrRoundTrip(r.kind);
    PtrRoundTrip(r.ns);
    PtrRoundTrip(r.section);
    var decoded := KeyToParentRef(ParentRefToKey(r));
    if decoded == Some(r) {
      assert Parts(r) == Split(ParentRefToKey(r), ':');
      assert forall i :: 0 <= i < 5 ==> ':' !in Parts(r)[i];
      assert Parts(r)[0] == StrPtrToString(r.group) && Parts(r)[1] == StrPtrToString(r.kind) && Parts(r)[2] == StrPtrToString(r.ns);
      assert Parts(r)[3] == r.name && Parts(r)[4] == StrPtrToString(r.section);
    }
  }

  lemma {:induction false} SplitConcat(p: string, s: string, c: char)
    ensures |Split(p + [c] + s, c)| == |Split(p, c)| + |Split(s, c)|
    ensures |Split(p, c)| == 1 <==> c !in p
  {
    var whole := p + [c] + s;
    if p == "" {
      assert whole[1..] == s;
    } else {
      SplitConcat(p[1..], s, c);
      assert whole[1..] == p[1..] + [c] + s;
      assert p == [p[0]] + p[1..];
    }
  }

  /** Joining never makes fewer parts, and as many exactly when no part holds the separator. */
  lemma {:induction false} SplitJoinLength(parts: seq<string>, c: char)
    requires |parts| >= 1
    ensures |Split(Join(parts, c), c)| >= |parts|
    ensures |Split(Join(parts, c), c)| == |parts| <==> forall i :: 0 <= i < |parts| ==> c !in parts[i]
  {
    if |parts| == 1 {
      SplitConcat(parts[0], "", c);
    } else {
      SplitConcat(parts[0], Join(parts[1..], c), c);
      SplitJoinLength(parts[1..], c);
      assert parts == [parts[0]] + parts[1..];
    }
  }

  ghost predicate ColonFree(r: ParentRef) {
    forall i :: 0 <= i < 5 ==> ':' !in Parts(r)[i]
  }

  /** The key of a reference reads back as some reference exactly without colons. */
  lemma KeyReadable(r: ParentRef)
    ensures KeyToParentRef(ParentRefToKey(r)) != None <==> ColonFree(r)
  {
    SplitJoinLength(Parts(r), ':');
  }

  /** Plain references have different keys, unless they differ in the port alone. */
  lemma KeyInjective(a: ParentRef, b: ParentRef)
    requires Plain(a.(port := None)) && Plain(b.(port := None)) && ParentRefToKey(a) == ParentRefToKey(b)
    ensures a.(port := None) == b.(port := None)
  {
    var a', b' := a.(port := None), b.(port := None);
    assert Parts(a) == Parts(a') && Parts(b) == Parts(b');
    RefRoundTrip(a');
    RefRoundTrip(b');
  }

  // ---- order

  /** `cmp.Compare` on strings. */
  function CompareStrings(a: string, b: string): int {
    if Less(a, b) then -1 else if Less(b, a) then 1 else 0
  }

  function CompareInts(a: int, b: int): int {
    if a < b then -1 else if a > b then 1 else 0
  }

  /** Nil comes first. */
  function ComparePointers<T>(compare: (T, T) -> int, a: Option<T>, b: Option<T>): int {
    if a == None && b != None then -1
    else if a != None && b == None then 1
    else if a != None && b != None then compare(a.value, b.value)
    else 0
  }

  /** A missing field comes before a present one; present ones compare by value. */
  lemma NilComesFirst(a: string, b: string, m: int, n: int)
    ensures ComparePointers(CompareStrings, None, Some(a)) < 0 < ComparePointers(CompareStrings, Some(a), None)
    ensures ComparePointers(CompareInts, None, Some(m)) < 0 < ComparePointers(CompareInts, Some(m), None)
    ensures ComparePointers(CompareStrings, Some(a), Some(b)) < 0 <==> Less(a, b)
    ensures ComparePointers(CompareInts, Some(m), Some(n)) < 0 <==> m < n
    ensures ComparePointers(CompareStrings, None, None) == 0 == ComparePointers(CompareInts, None, None)
  {
    LessTotal(a, b);
  }

  /** The comparator of the sort. */
  predicate RefLess(a: ParentRef, b: ParentRef) {
    if ComparePointers(CompareStrings, a.group, b.group) != 0 then ComparePointers(CompareStrings, a.group, b.group) < 0
    else if ComparePointers(CompareStrings, a.kind, b.kind) != 0 then ComparePointers(CompareStrings, a.kind, b.kind) < 0
    else if ComparePointers(CompareStrings, a.ns, b.ns) != 0 then ComparePointers(CompareStrings, a.ns, b.ns) < 0
    else if a.name != b.name then Less(a.name, b.name)
    else if ComparePointers(CompareStrings, a.section, b.section) != 0 then ComparePointers(CompareStrings, a.section, b.section) < 0
    else if ComparePointers(CompareInts, a.port, b.port) != 0 then ComparePointers(CompareInts, a.port, b.port) < 0
    else false
  }

  /** Comparing field by field, the first difference decides. */
  ghost function Then(first: int, second: int): int {
    if first != 0 then first else second
  }

  ghost function FieldCompare(a: ParentRef, b: ParentRef, field: nat): int {
    match field
    case 0 => ComparePointers(CompareStrings, a.group, b.group)
    case 1 => ComparePointers(CompareStrings, a.kind, b.kind)
    case 2 => ComparePointers(CompareStrings, a.ns, b.ns)
    case 3 => CompareStrings(a.name, b.name)
    case 4 => ComparePointers(CompareStrings, a.section, b.section)
    case _ => ComparePointers(CompareInts, a.port, b.port)
  }

  ghost function CompareFrom(a: ParentRef, b: ParentRef, field: nat): int
    requires field <= 6
    decreases 6 - field
  {
    if field == 6 then 0 else Then(FieldCompare(a, b, field), CompareFrom(a, b, field + 1))
  }

  lemma RefLessIsCompare(a: ParentRef, b: ParentRef)
    ensures RefLess(a, b) <==> CompareFrom(a, b, 0) < 0
  {
    LessTotal(a.name, b.name);
    assert CompareFrom(a, b, 6) == 0;
    assert CompareFrom(a, b, 5) == Then(FieldCompare(a, b, 5), 0);
    assert CompareFrom(a, b, 4) == Then(FieldCompare(a, b, 4), CompareFrom(a, b, 5));
    assert CompareFrom(a, b, 3) == Then(FieldCompare(a, b, 3), CompareFrom(a, b, 4));
    assert CompareFrom(a, b, 2) == Then(FieldCompare(a, b, 2), CompareFrom(a, b, 3));
    assert CompareFrom(a, b, 1) == Then(FieldCompare(a, b, 1), CompareFrom(a, b, 2));
  }

  /** How a total order composes. */
  ghost predicate Composes(ab: int, bc: int, ac: int) {
    ab <= 0 && bc <= 0 ==> ac <= 0 && (ac == 0 <==> ab == 0 && bc == 0)
  }

  lemma StringsCompose(a: string, b: string, c: string)
    ensures Composes(CompareStrings(a, b), CompareStrings(b, c), CompareStrings(a, c))
    ensures CompareStrings(a, b) == -CompareStrings(b, a) && (CompareStrings(a, b) == 0 <==> a == b)
  {
    LessTotal(a, b);
    LessTotal(b, c);
    LessTotal(a, c);
    if Less(a, b) && Less(b, c) { LessTransitive(a, b, c); }
  }

  lemma PointersCompose(a: Option<string>, b: Option<string>, c: Option<string>)
    ensures Composes(ComparePointers(CompareStrings, a, b), ComparePointers(CompareStrings, b, c), ComparePointers(CompareStrings, a, c))
    ensures ComparePointers(CompareStrings, a, b) == -ComparePointers(CompareStrings, b, a)
    ensures ComparePointers(CompareStrings, a, b) == 0 <==> a == b
  {
    if a != None && b != None {
      StringsCompose(a.value, b.value, if c == None then "" else c.value);
    }
  }

  lemma FieldsCompose(a: ParentRef, b: ParentRef, c: ParentRef, field: nat)
    requires field < 6
    ensures Composes(FieldCompare(a, b, field), FieldCompare(b, c, field), FieldCompare(a, c, field))
    ensures FieldCompare(a, b, field) == -FieldCompare(b, a, field)
  {
    match field
    case 0 => PointersCompose(a.group, b.group, c.group);
    case 1 => PointersCompose(a.kind, b.kind, c.kind);
    case 2 => PointersCompose(a.ns, b.ns, c.ns);
    case 3 => StringsCompose(a.name, b.name, c.name);
    case 4 => PointersCompose(a.section, b.section, c.section);
    case 5 =>
  }

  lemma {:induction false} CompareComposes(a: ParentRef, b: ParentRef, c: ParentRef, field: nat)
    requires field <= 6
    ensures Composes(CompareFrom(a, b, field), CompareFrom(b, c, field), CompareFrom(a, c, field))
    ensures CompareFrom(a, b, field) == -CompareFrom(b, a, field)
    decreases 6 - field
  {
    if field < 6 {
      CompareComposes(a, b, c, field + 1);
      FieldsCompose(a, b, c, field);
    }
  }

  lemma SameFields(a: ParentRef, b: ParentRef)
    requires CompareFrom(a, b, 0) == 0
    ensures a == b
  {
    PointersCompose(a.group, b.group, None);
    PointersCompose(a.kind, b.kind, None);
    PointersCompose(a.ns, b.ns, None);
    StringsCompose(a.name, b.name, "");
    PointersCompose(a.section, b.section, None);
    hide ComparePointers, CompareStrings;
    forall f: nat | f < 6 ensures FieldCompare(a, b, f) == 0 {
      AllZero(a, b, 0, f);
    }
    assert FieldCompare(a, b, 0) == 0 && FieldCompare(a, b, 1) == 0 && FieldCompare(a, b, 2) == 0 && FieldCompare(a, b, 3) == 0;
    assert FieldCompare(a, b, 4) == 0 && FieldCompare(a, b, 5) == 0;
    PortsEqual(a, b);
  }

  lemma PortsEqual(a: ParentRef, b: ParentRef)
    requires FieldCompare(a, b, 5) == 0
    ensures a.port == b.port
  {}

  lemma {:induction false} AllZero(a: ParentRef, b: ParentRef, field: nat, f: nat)
    requires field <= f < 6 && CompareFrom(a, b, field) == 0
    ensures FieldCompare(a, b, f) == 0
    decreases 6 - field
  {
    if field < f { AllZero(a, b, field + 1, f); }
  }

  /** The comparator is a strict order in which only equal references are unordered. */
  lemma RefLessStrictTotal(a: ParentRef, b: ParentRef)
    ensures !(RefLess(a, b) && RefLess(b, a))
    ensures a == b <==> !RefLess(a, b) && !RefLess(b, a)
  {
    RefLessIsCompare(a, b);
    RefLessIsCompare(b, a);
    CompareComposes(a, b, a, 0);
    if CompareFrom(a, b, 0) == 0 { SameFields(a, b); }
  }

  lemma RefLessTransitive(a: ParentRef, b: ParentRef, c: ParentRef)
    ensures RefLess(a, b) && RefLess(b, c) ==> RefLess(a, c)
    ensures !RefLess(b, a) && !RefLess(c, b) ==> !RefLess(c, a)
  {
    RefLessIsCompare(a, b);
    RefLessIsCompare(b, c);
    RefLessIsCompare(a, c);
    RefLessIsCompare(b, a);
    RefLessIsCompare(c, b);
    RefLessIsCompare(c, a);
    CompareComposes(a, b, c, 0);
    CompareComposes(b, c, a, 0);
    CompareComposes(c, a, b, 0);
  }
}
