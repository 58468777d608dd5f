/** An attribute set: the ordered list of (type, base value) entries an
    entity is initialised from. An entry's type may be missing (None),
    as a serialised list can hold empty slots. */
module AttributeSets {
  import opened Types

  datatype Entry = Entry(attrType: Option<AttributeType>, baseValue: real)

  /** The index of the first entry whose type equals `t`, or `|s|` if none does. */
  function FirstIndexOf(s: seq<Entry>, t: Option<AttributeType>): (k: nat)
    ensures k <= |s|
    ensures k < |s| ==> s[k].attrType == t
    ensures forall j :: 0 <= j < k ==> s[j].attrType != t
  {
    if s == [] then 0
    else if s[0].attrType == t then 0
    else 1 + FirstIndexOf(s[1..], t)
  }

  predicate Contains(s: seq<Entry>, t: Option<AttributeType>) {
    FirstIndexOf(s, t) < |s|
  }

  /** The base value of the first entry with type `t`, or 0 when there is none. */
  function BaseValueOf(s: seq<Entry>, t: Option<AttributeType>): real {
    var k := FirstIndexOf(s, t);
    if k < |s| then s[k].baseValue else 0.0
  }

  /** The upsert: overwrite the first entry of type `t` in place, or append one. */
  function Upserted(s: seq<Entry>, t: AttributeType, v: real): seq<Entry> {
    var k := FirstIndexOf(s, Some(t));
    if k < |s| then s[k := Entry(Some(t), v)] else s + [Entry(Some(t), v)]
  }

  /** The list without its first entry of type `t`; unchanged when there is none. */
  function WithoutFirst(s: seq<Entry>, t: Option<AttributeType>): seq<Entry> {
    var k := FirstIndexOf(s, t);
    if k < |s| then s[..k] + s[k + 1..] else s
  }

  /** No present type occurs twice. */
  ghost predicate DistinctTypes(s: seq<Entry>) {
    forall i, j :: 0 <= i < j < |s| && s[i].attrType.Some? ==> s[i].attrType != s[j].attrType
  }

  // ----- Properties of the list operations -----

  /** After an upsert the type is present with the new value; an existing
      entry is overwritten in place, a new one is appended at the end, and
      every other entry keeps its position and contents. */
  lemma UpsertedFindsValue(s: seq<Entry>, t: AttributeType, v: real)
    ensures var r := Upserted(s, t, v);
      && Contains(r, Some(t)) && BaseValueOf(r, Some(t)) == v
      && (Contains(s, Some(t)) ==> |r| == |s|)
      && (!Contains(s, Some(t)) ==> |r| == |s| + 1 && r[..|s|] == s && r[|s|] == Entry(Some(t), v))
      && forall j :: 0 <= j < |s| && j != FirstIndexOf(s, Some(t)) ==> r[j] == s[j]
  {
    var r := Upserted(s, t, v);
    var k := FirstIndexOf(s, Some(t));
    if k < |s| {
      FirstIndexAt(r, Some(t), k);
    } else {
      FirstIndexAt(r, Some(t), |s|);
    }
  }

  /** `FirstIndexOf` is characterised by its contract. */
  lemma FirstIndexAt(s: seq<Entry>, t: Option<AttributeType>, k: nat)
    requires k < |s| && s[k].attrType == t
    requires forall j :: 0 <= j < k ==> s[j].attrType != t
    ensures FirstIndexOf(s, t) == k
  {
  }

  /** An upsert keeps present types distinct. */
  lemma UpsertedKeepsDistinct(s: seq<Entry>, t: AttributeType, v: real)
    requires DistinctTypes(s)
    ensures DistinctTypes(Upserted(s, t, v))
  {
  }

  /** A removal keeps present types distinct. */
  lemma WithoutFirstKeepsDistinct(s: seq<Entry>, t: Option<AttributeType>)
    requires DistinctTypes(s)
    ensures DistinctTypes(WithoutFirst(s, t))
  {
    var k := FirstIndexOf(s, t);
    if k < |s| {
      var r := WithoutFirst(s, t);
      assert forall j :: 0 <= j < |r| ==> r[j] == (if j < k then s[j] else s[j + 1]);
    }
  }

  /** With distinct types, a removal of a present type leaves it absent. */
  lemma WithoutFirstRemovesType(s: seq<Entry>, t: AttributeType)
    requires DistinctTypes(s)
    ensures !Contains(WithoutFirst(s, Some(t)), Some(t))
    ensures Contains(s, Some(t)) ==> |WithoutFirst(s, Some(t))| == |s| - 1
  {
    var k := FirstIndexOf(s, Some(t));
    var r := WithoutFirst(s, Some(t));
    if k < |s| {
      assert forall j :: 0 <= j < |r| ==> r[j] == (if j < k then s[j] else s[j + 1]);
    }
  }

  /** Removing a type just added as new restores the list. */
  lemma RemoveUndoesNewAdd(s: seq<Entry>, t: AttributeType, v: real)
    requires !Contains(s, Some(t))
    ensures WithoutFirst(Upserted(s, t, v), Some(t)) == s
  {
    var r := Upserted(s, t, v);
    FirstIndexAt(r, Some(t), |s|);
    assert r[..|s|] == s;
  }

  /** The asset: its list of entries, edited in place. */
  class AttributeSet {
    var attributes: seq<Entry>

    constructor ()
      ensures attributes == []
    {
      attributes := [];
    }

    /** Sets the base value of type `t`, appending an entry when it is new;
        a missing type changes nothing. */
    method AddAttribute(t: Option<AttributeType>, baseValue: real)
      modifies this
      ensures t.None? ==> attributes == old(attributes)
      ensures t.Some? ==> attributes == Upserted(old(attributes), t.value, baseValue)
      ensures DistinctTypes(old(attributes)) ==> DistinctTypes(attributes)
    {
      if t.None? {
        return;
      }
      var i := 0;
      while i < |attributes|
        invariant 0 <= i <= |attributes|
        invariant attributes == old(attributes)
        invariant forall j :: 0 <= j < i ==> attributes[j].attrType != t
      {
        if attributes[i].attrType == t {
          FirstIndexAt(attributes, t, i);
          if DistinctTypes(attributes) {
            UpsertedKeepsDistinct(attributes, t.value, baseValue);
          }
          var entry := attributes[i];
          attributes := attributes[i := entry.(baseValue := baseValue)];
          return;
        }
        i := i + 1;
      }
      if DistinctTypes(attributes) {
        UpsertedKeepsDistinct(attributes, t.value, baseValue);
      }
      attributes := attributes + [Entry(t, baseValue)];
    }

    /** Removes the first entry of type `t`; a missing type changes nothing. */
    method RemoveAttribute(t: Option<AttributeType>)
      modifies this
      ensures t.None? ==> attributes == old(attributes)
      ensures t.Some? ==> attributes == WithoutFirst(old(attributes), t)
    {
      if t.None? {
        return;
      }
      var i := 0;
      while i < |attributes|
        invariant 0 <= i <= |attributes|
        invariant attributes == old(attributes)
        invariant forall j :: 0 <= j < i ==> attributes[j].attrType != t
      {
        if attributes[i].attrType == t {
          FirstIndexAt(attributes, t, i);
          attributes := attributes[..i] + attributes[i + 1..];
          return;
        }
        i := i + 1;
      }
    }

    /** Whether some entry's type equals `t` (for a missing `t`: whether some slot is empty). */
    method HasAttribute(t: Option<AttributeType>) returns (b: bool)
      ensures b <==> exists j :: 0 <= j < |attributes| && attributes[j].attrType == t
      ensures b == Contains(attributes, t)
    {
      var i := 0;
      while i < |attributes|
        invariant 0 <= i <= |attributes|
        invariant forall j :: 0 <= j < i ==> attributes[j].attrType != t
      {
        if attributes[i].attrType == t {
          return true;
        }
        i := i + 1;
      }
      return false;
    }

    /** The base value of the first entry of type `t`, or 0 when absent. */
    method GetBaseValue(t: Option<AttributeType>) returns (v: real)
      ensures v == BaseValueOf(attributes, t)
      ensures (forall j :: 0 <= j < |attributes| ==> attributes[j].attrType != t) ==> v == 0.0
    {
      var i := 0;
      while i < |attributes|
        invariant 0 <= i <= |attributes|
        invariant forall j :: 0 <= j < i ==> attributes[j].attrType != t
      {
        if attributes[i].attrType == t {
          FirstIndexAt(attributes, t, i);
          return attributes[i].baseValue;
        }
        i := i + 1;
      }
      return 0.0;
    }
  }
}
