/** The attribute database: the list of every attribute type (slots may be
    empty), a lazily built name index where the first entry with a name
    wins, and the sorted list of categories. */
module Database {
  import opened Types

  type Slot = Option<AttributeType>

  predicate Named(a: Slot, name: string) {
    a.Some? && a.value.name == name
  }

  /** The index of the first attribute called `name`, or `|s|` if none is. */
  function FirstNamedIndex(s: seq<Slot>, name: string): (k: nat)
    ensures k <= |s|
    ensures k < |s| ==> Named(s[k], name)
    ensures forall j :: 0 <= j < k ==> !Named(s[j], name)
  {
    if s == [] then 0
    else if Named(s[0], name) then 0
    else 1 + FirstNamedIndex(s[1..], name)
  }

  /** The linear scan: the first attribute in list order called `name`. */
  function FirstNamed(s: seq<Slot>, name: string): (r: Option<AttributeType>)
    ensures r.Some? <==> exists j :: 0 <= j < |s| && Named(s[j], name)
    ensures r.Some? ==> r.value.name == name && Some(r.value) in s
  {
    var k := FirstNamedIndex(s, name);
    if k < |s| then s[k] else None
  }

  /** The index the rebuild leaves after visiting `s` in order: a non-empty
      name is taken by the first attribute that carries it. */
  function Lookup(s: seq<Slot>): (r: map<string, AttributeType>)
    ensures forall name :: name in r ==> name != "" && r[name].name == name && Some(r[name]) in s
  {
    if s == [] then map[]
    else
      var m := Lookup(s[..|s| - 1]);
      var a := s[|s| - 1];
      if a.Some? && a.value.name != "" && a.value.name !in m then m[a.value.name := a.value] else m
  }

  lemma FirstNamedIndexAt(s: seq<Slot>, name: string, k: nat)
    requires k <= |s|
    requires k < |s| ==> Named(s[k], name)
    requires forall j :: 0 <= j < k ==> !Named(s[j], name)
    ensures FirstNamedIndex(s, name) == k
  {
  }

  /** Appending an attribute does not move an earlier first match. */
  lemma FirstNamedSnoc(s: seq<Slot>, a: Slot, name: string)
    ensures FirstNamed(s + [a], name)
      == if FirstNamed(s, name).Some? then FirstNamed(s, name)
         else if Named(a, name) then a
         else None
  {
    var t := s + [a];
    var k := FirstNamedIndex(s, name);
    assert forall j :: 0 <= j < |s| ==> t[j] == s[j];
    FirstNamedIndexAt(t, name, if k < |s| || Named(a, name) then k else |t|);
  }

  /** The index agrees with the linear scan on every non-empty name. */
  lemma {:induction false} LookupAgreesWithScan(s: seq<Slot>, name: string)
    ensures name in Lookup(s) <==> name != "" && FirstNamed(s, name).Some?
    ensures name in Lookup(s) ==> Some(Lookup(s)[name]) == FirstNamed(s, name)
  {
    if s != [] {
      var p := s[..|s| - 1];
      LookupAgreesWithScan(p, name);
      assert s == p + [s[|s| - 1]];
      FirstNamedSnoc(p, s[|s| - 1], name);
    }
  }

  // ----- Categories: ordinal order on strings, sorted distinct lists -----

  /** Lexicographic order on strings, comparing characters by code. */
  predicate Less(a: string, b: string) {
    if a == [] then b != []
    else if b == [] then false
    else if a[0] != b[0] then a[0] < b[0]
    else Less(a[1..], b[1..])
  }

  lemma {:induction false} LessIrreflexive(a: string)
    ensures !Less(a, a)
  {
    if a != [] {
      LessIrreflexive(a[1..]);
    }
  }

  lemma {:induction false} LessTotal(a: string, b: string)
    requires a != b
    ensures Less(a, b) || Less(b, a)
  {
    if a != [] && b != [] && a[0] == b[0] {
      assert a == [a[0]] + a[1..] && b == [b[0]] + b[1..];
      LessTotal(a[1..], b[1..]);
    }
  }

  lemma {:induction false} LessTransitive(a: string, b: string, c: string)
    requires Less(a, b) && Less(b, c)
    ensures Less(a, c)
  {
    if a != [] && b != [] && c != [] && a[0] == b[0] && b[0] == c[0] {
      LessTransitive(a[1..], b[1..], c[1..]);
    }
  }

  /** Strictly ascending, hence free of duplicates. */
  predicate StrictlySorted(r: seq<string>) {
    forall i, j :: 0 <= i < j < |r| ==> Less(r[i], r[j])
  }

  /** Adds `x` to a strictly sorted list unless it is already there. */
  function Insert(x: string, r: seq<string>): (u: seq<string>)
    ensures forall y :: y in u <==> y == x || y in r
  {
    if r == [] then [x]
    else if x == r[0] then r
    else if Less(x, r[0]) then [x] + r
    else [r[0]] + Insert(x, r[1..])
  }

  lemma {:induction false} InsertSorted(x: string, r: seq<string>)
    requires StrictlySorted(r)
    ensures StrictlySorted(Insert(x, r))
  {
    if r != [] && x != r[0] {
      if Less(x, r[0]) {
        var u := [x] + r;
        forall i, j | 0 <= i < j < |u|
          ensures Less(u[i], u[j])
        {
          if i == 0 && j > 1 {
            LessTransitive(x, r[0], r[j - 1]);
          }
        }
      } else {
        LessTotal(x, r[0]);
        var t := r[1..];
        InsertSorted(x, t);
        var u := [r[0]] + Insert(x, t);
        forall i, j | 0 <= i < j < |u|
          ensures Less(u[i], u[j])
        {
          if i == 0 {
            assert u[j] in Insert(x, t);
          }
        }
      }
    }
  }

  /** `Categories`: the distinct categories of the present attributes, sorted. */
  function CategoriesOf(s: seq<Slot>): (r: seq<string>)
    ensures StrictlySorted(r)
    ensures forall c :: c in r <==> exists j :: 0 <= j < |s| && s[j].Some? && s[j].value.category == c
  {
    if s == [] then []
    else
      var p := s[..|s| - 1];
      var rest := CategoriesOf(p);
      var a := s[|s| - 1];
      assert forall j :: 0 <= j < |p| ==> s[j] == p[j];
      if a.Some? then
        InsertSorted(a.value.category, rest);
        Insert(a.value.category, rest)
      else rest
  }

  lemma {:induction false} LessAsymmetric(a: string, b: string)
    ensures !(Less(a, b) && Less(b, a))
  {
    if a != [] && b != [] && a[0] == b[0] {
      LessAsymmetric(a[1..], b[1..]);
    }
  }

  /** The head of a strictly sorted list is its least element. */
  lemma HeadIsLeast(r: seq<string>, c: string)
    requires StrictlySorted(r) && c in r
    ensures c == r[0] || Less(r[0], c)
  {
  }

  /** Sorted distinct lists are determined by their elements. */
  lemma {:induction false} SortedUnique(r: seq<string>, u: seq<string>)
    requires StrictlySorted(r) && StrictlySorted(u)
    requires forall c :: c in r <==> c in u
    ensures r == u
  {
    if r != [] {
      assert r[0] in u;
    }
    if u != [] {
      assert u[0] in r;
    }
    if r != [] && u != [] {
      HeadIsLeast(r, u[0]);
      HeadIsLeast(u, r[0]);
      LessAsymmetric(r[0], u[0]);
      assert r[0] == u[0];
      forall c
        ensures c in r[1..] <==> c in u[1..]
      {
        LessIrreflexive(c);
        if c in r[1..] {
          var j :| 1 <= j < |r| && r[j] == c;
          assert c in u;
          var k :| 0 <= k < |u| && u[k] == c;
          assert k > 0 && u[1..][k - 1] == c;
        }
        if c in u[1..] {
          var j :| 1 <= j < |u| && u[j] == c;
          assert c in r;
          var k :| 0 <= k < |r| && r[k] == c;
          assert k > 0 && r[1..][k - 1] == c;
        }
      }
      SortedUnique(r[1..], u[1..]);
      assert r == [r[0]] + r[1..] && u == [u[0]] + u[1..];
    }
  }

  /** The categories do not depend on the order or multiplicity of the attributes. */
  lemma CategoriesOrderFree(s: seq<Slot>, t: seq<Slot>)
    requires forall a :: a in s <==> a in t
    ensures CategoriesOf(s) == CategoriesOf(t)
  {
    var r := CategoriesOf(s);
    var u := CategoriesOf(t);
    forall c
      ensures c in r <==> c in u
    {
      if c in r {
        var j :| 0 <= j < |s| && s[j].Some? && s[j].value.category == c;
        assert s[j] in t;
      }
      if c in u {
        var j :| 0 <= j < |t| && t[j].Some? && t[j].value.category == c;
        assert t[j] in s;
      }
    }
    SortedUnique(r, u);
  }

  // ----- Filters -----

  /** `GetAttributesByCategory`: the present attributes of category `c`, in list order. */
  function ByCategory(s: seq<Slot>, c: string): (r: seq<AttributeType>)
    ensures forall a :: a in r <==> Some(a) in s && a.category == c
  {
    if s == [] then []
    else if s[0].Some? && s[0].value.category == c then [s[0].value] + ByCategory(s[1..], c)
    else ByCategory(s[1..], c)
  }

  /** `RemoveAll(a => a == null)`: the present attributes, in list order. */
  function Present(s: seq<Slot>): (r: seq<Slot>)
    ensures |r| <= |s|
    ensures forall a :: a in r <==> a in s && a.Some?
  {
    if s == [] then []
    else if s[0].Some? then [s[0]] + Present(s[1..])
    else Present(s[1..])
  }

  /** Both filters keep list order: they distribute over concatenation. */
  lemma {:induction false} FiltersKeepOrder(s: seq<Slot>, t: seq<Slot>, c: string)
    ensures ByCategory(s + t, c) == ByCategory(s, c) + ByCategory(t, c)
    ensures Present(s + t) == Present(s) + Present(t)
  {
    if s != [] {
      assert (s + t)[1..] == s[1..] + t;
      FiltersKeepOrder(s[1..], t, c);
    } else {
      assert s + t == t;
    }
  }

  /** Dropping empty slots changes no lookup, category list or category filter. */
  lemma PresentKeepsQueries(s: seq<Slot>, name: string, c: string)
    ensures FirstNamed(Present(s), name) == FirstNamed(s, name)
    ensures CategoriesOf(Present(s)) == CategoriesOf(s)
    ensures ByCategory(Present(s), c) == ByCategory(s, c)
  {
    PresentKeepsFirst(s, name);
    PresentKeepsCategory(s, c);
    var a := Present(s);
    forall c1
      ensures c1 in CategoriesOf(a) <==> c1 in CategoriesOf(s)
    {
      if c1 in CategoriesOf(a) {
        var j :| 0 <= j < |a| && a[j].Some? && a[j].value.category == c1;
        assert a[j] in s;
      }
      if c1 in CategoriesOf(s) {
        var j :| 0 <= j < |s| && s[j].Some? && s[j].value.category == c1;
        assert s[j] in a;
      }
    }
    SortedUnique(CategoriesOf(a), CategoriesOf(s));
  }

  /** The scan looks at the head first. */
  lemma FirstNamedCons(s: seq<Slot>, name: string)
    requires s != []
    ensures FirstNamed(s, name) == if Named(s[0], name) then s[0] else FirstNamed(s[1..], name)
  {
  }

  lemma {:induction false} PresentKeepsFirst(s: seq<Slot>, name: string)
    ensures FirstNamed(Present(s), name) == FirstNamed(s, name)
  {
    if s != [] {
      PresentKeepsFirst(s[1..], name);
      FirstNamedCons(s, name);
      if s[0].Some? {
        var p := Present(s);
        assert p[0] == s[0] && p[1..] == Present(s[1..]);
        FirstNamedCons(p, name);
      }
    }
  }

  lemma {:induction false} PresentKeepsCategory(s: seq<Slot>, c: string)
    ensures ByCategory(Present(s), c) == ByCategory(s, c)
  {
    if s != [] {
      PresentKeepsCategory(s[1..], c);
      if s[0].Some? {
        assert Present(s)[1..] == Present(s[1..]);
      }
    }
  }

  /** Characters `char.IsWhiteSpace` accepts. */
  predicate IsWhiteSpace(ch: char) {
    || ch == ' ' || ('\t' <= ch <= '\r') || ch == '\U{85}' || ch == '\U{A0}' || ch == '\U{1680}'
    || ('\U{2000}' <= ch <= '\U{200A}') || ch == '\U{2028}' || ch == '\U{2029}' || ch == '\U{202F}'
    || ch == '\U{205F}' || ch == '\U{3000}'
  }

  /** `string.IsNullOrWhiteSpace`, with the empty string standing for null too. */
  predicate IsBlank(name: string) {
    forall i :: 0 <= i < |name| ==> IsWhiteSpace(name[i])
  }

  /** The asset: the attribute list and its cached name index (None when invalidated). */
  class AttributeDatabase {
    var allAttributes: seq<Slot>
    var lookup: Option<map<string, AttributeType>>

    /** A built index is always the one the current list gives. */
    ghost predicate Valid()
      reads this
    {
      lookup.Some? ==> lookup.value == Lookup(allAttributes)
    }

    constructor ()
      ensures Valid() && allAttributes == [] && lookup == None
    {
      allAttributes := [];
      lookup := None;
    }

    /** Rebuilds the index when it is missing or its size differs from the list's. */
    method EnsureLookup()
      requires Valid()
      modifies this`lookup
      ensures Valid() && lookup == Some(Lookup(allAttributes))
    {
      if lookup.None? || |lookup.value| != |allAttributes| {
        var m := map[];
        var i := 0;
        while i < |allAttributes|
          invariant 0 <= i <= |allAttributes|
          invariant m == Lookup(allAttributes[..i])
        {
          var a := allAttributes[i];
          assert allAttributes[..i + 1][..i] == allAttributes[..i];
          if a.Some? && a.value.name != "" && a.value.name !in m {
            m := m[a.value.name := a.value];
          }
          i := i + 1;
        }
        assert allAttributes[..i] == allAttributes;
        lookup := Some(m);
      }
    }

    /** The first attribute called `name`; none for an empty name. */
    method GetAttribute(name: string) returns (r: Option<AttributeType>)
      requires Valid()
      modifies this`lookup
      ensures Valid()
      ensures name == "" ==> r == None
      ensures name != "" ==> r == FirstNamed(allAttributes, name)
    {
      if name == "" {
        return None;
      }
      EnsureLookup();
      LookupAgreesWithScan(allAttributes, name);
      var m := lookup.value;
      if name in m {
        r := Some(m[name]);
      } else {
        r := None;
      }
    }

    /** The distinct categories of the present attributes, in ascending order. */
    function Categories(): (r: seq<string>)
      reads this
      ensures r == CategoriesOf(allAttributes)
      ensures StrictlySorted(r)
      ensures forall c :: c in r <==>
        exists j :: 0 <= j < |allAttributes| && allAttributes[j].Some? && allAttributes[j].value.category == c
    {
      CategoriesOf(allAttributes)
    }

    /** The present attributes of `category`, in list order. */
    function GetAttributesByCategory(category: string): (r: seq<AttributeType>)
      reads this
      ensures r == ByCategory(allAttributes, category)
      ensures forall a :: a in r <==> Some(a) in allAttributes && a.category == category
    {
      ByCategory(allAttributes, category)
    }

    /** Drops the empty slots, keeping the order of the rest, and invalidates the index. */
    method Validate()
      modifies this
      ensures Valid()
      ensures allAttributes == Present(old(allAttributes)) && lookup == None
    {
      allAttributes := Present(allAttributes);
      lookup := None;
    }

    /** Returns the attribute called `name`, appending a new one with the
        category when there is none; a blank name gives none. */
    method CreateAttribute(name: string, category: string := DefaultCategory) returns (r: Option<AttributeType>)
      requires Valid()
      modifies this
      ensures Valid()
      ensures IsBlank(name) ==> r == None && allAttributes == old(allAttributes)
      ensures !IsBlank(name) && FirstNamed(old(allAttributes), name).Some? ==>
        r == FirstNamed(old(allAttributes), name) && allAttributes == old(allAttributes)
      ensures !IsBlank(name) && FirstNamed(old(allAttributes), name).None? ==>
        r == Some(AttributeType(name, category)) && allAttributes == old(allAttributes) + [r] && lookup == None
      ensures !IsBlank(name) ==> r.Some? && r == FirstNamed(allAttributes, name)
    {
      if IsBlank(name) {
        return None;
      }
      var existing := GetAttribute(name);
      if existing.Some? {
        return existing;
      }
      var created := AttributeType(name, category);
      FirstNamedSnoc(allAttributes, Some(created), name);
      allAttributes := allAttributes + [Some(created)];
      lookup := None;
      return Some(created);
    }

    /** Removes the attribute called `name`; false when there is none. */
    method RemoveAttribute(name: string) returns (removed: bool)
      requires Valid()
      modifies this
      ensures Valid()
      ensures removed <==> name != "" && FirstNamed(old(allAttributes), name).Some?
      ensures !removed ==> allAttributes == old(allAttributes)
      ensures removed ==> lookup == None && |allAttributes| == |old(allAttributes)| - 1
      ensures removed ==>
        var k := FirstNamedIndex(old(allAttributes), name);
        allAttributes == old(allAttributes)[..k] + old(allAttributes)[k + 1..]
    {
      var attr := GetAttribute(name);
      if attr.None? {
        return false;
      }
      var k := IndexOfSlot(allAttributes, attr);
      FirstSlotIsFirstNamed(allAttributes, name);
      allAttributes := allAttributes[..k] + allAttributes[k + 1..];
      lookup := None;
      return true;
    }
  }

  /** `List.Remove`'s search: the first slot equal to `a`, or `|s|`. */
  function IndexOfSlot(s: seq<Slot>, a: Slot): (k: nat)
    ensures k <= |s|
    ensures k < |s| ==> s[k] == a
    ensures forall j :: 0 <= j < k ==> s[j] != a
  {
    if s == [] then 0 else if s[0] == a then 0 else 1 + IndexOfSlot(s[1..], a)
  }

  /** The first slot equal to the first attribute called `name` is that
      attribute's own slot, since an earlier equal one would carry the name. */
  lemma FirstSlotIsFirstNamed(s: seq<Slot>, name: string)
    requires FirstNamed(s, name).Some?
    ensures IndexOfSlot(s, FirstNamed(s, name)) == FirstNamedIndex(s, name)
  {
  }
}
