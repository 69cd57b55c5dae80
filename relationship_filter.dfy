/**
 A relationship filter group: a composite allowed filter that namespaces its child
 filters under a relationship name (`author.name`) and applies them together as one
 grouped `where` block.

 Filters are objects, as in the original: the group's constructor renames its
 children in place, and an object passed to two groups (or twice to one) sees every
 rename. The simple filters that usually sit at the leaves are not part of this
 model; `LeafFilter` stands for any of them, with its name list and its value
 selection left as opaque functions of its current name.
 */
module RelationshipFilters {
  import opened Collections

  datatype Option<T> = None | Some(value: T)

  /** What a child filter's `getValueFromCollection` hands to its `filter`: a group
      passes on a sub-collection, a leaf whatever its own (opaque) selection yields. */
  datatype FilterValue<V> = Entries(entries: map<string, V>) | Opaque(value: V)

  /** One child `filter` call made by a group: which child (by position) and with what value. */
  datatype Call<V> = Call(child: nat, value: FilterValue<V>)

  /** A clause added to a query: a grouped `where` whose closure made the listed child calls. */
  datatype Clause<V> = GroupedWhere(calls: seq<Call<V>>)

  /** The query being built, seen only through the grouped clauses added to it. */
  class QueryBuilder<V> {
    var clauses: seq<Clause<V>>

    constructor ()
      ensures clauses == []
    {
      clauses := [];
    }

    /** `where(closure)`: one bracketed block holding everything the closure did. */
    method Where(calls: seq<Call<V>>)
      modifies this
      ensures clauses == old(clauses) + [GroupedWhere(calls)]
    {
      clauses := clauses + [GroupedWhere(calls)];
    }
  }

  /** A simple allowed filter: a mutable public name, and the names it answers to and
      the value it picks out of a collection, both as unknown functions of that name. */
  class LeafFilter<V> {
    var name: string
    const namesOf: string -> seq<string>
    const valueOf: (string, map<string, V>) -> FilterValue<V>

    constructor (name: string, namesOf: string -> seq<string>, valueOf: (string, map<string, V>) -> FilterValue<V>)
      ensures this.name == name && this.namesOf == namesOf && this.valueOf == valueOf
    {
      this.name := name;
      this.namesOf := namesOf;
      this.valueOf := valueOf;
    }
  }

  /** Any allowed filter: a simple one, or a relationship group (which may be nested). */
  datatype FilterContract<V> = Leaf(leaf: LeafFilter<V>) | Relationship(group: AllowedRelationshipFilter<V>)
  {
    /** Nesting depth, the measure for recursion through groups. */
    ghost function Height(): nat
    {
      match this
      case Leaf(_) => 0
      case Relationship(g) => g.Height
    }

    /** Every group reachable from here is well formed (true of every constructed filter). */
    ghost predicate Valid()
      decreases Height(), 1, 0
    {
      Relationship? ==> group.Valid()
    }

    /** The leaf objects whose names this filter's names depend on. */
    ghost function Footprint(): set<LeafFilter<V>>
    {
      match this
      case Leaf(l) => {l}
      case Relationship(g) => g.Leaves
    }

    /** The object behind this filter, the one a rename writes to. */
    function Object(): object
    {
      match this
      case Leaf(l) => l as object
      case Relationship(g) => g as object
    }

    /** The `name` property; on a group it is the property an enclosing group creates. */
    function Name(): string
      reads Object()
    {
      match this
      case Leaf(l) => l.name
      case Relationship(g) => g.name
    }

    /** `$allowedFilter->getNames()`: a leaf's names follow from its current name, so a
        rename may change them; a nested group answers with its own `getNames`, which
        never reads the `name` an enclosing group writes. */
    function GetNames(): (names: seq<string>)
      requires Valid()
      reads Footprint()
      ensures Leaf? ==> names == leaf.namesOf(leaf.name)
      ensures Relationship? ==> names == group.GetNames()
      decreases Height(), 2, 0
    {
      match this
      case Leaf(l) => l.namesOf(l.name)
      case Relationship(g) => g.GetNames()
    }

    /** `$allowedFilter->getValueFromCollection($value)`: a leaf's own selection, made
        with its current name; a nested group's entries of `value` under its names. */
    function GetValueFromCollection(value: map<string, V>): (selected: FilterValue<V>)
      requires Valid()
      reads Footprint()
      ensures Leaf? ==> selected == leaf.valueOf(leaf.name, value)
      ensures Relationship? ==> (
        && selected.Entries?
        && (forall n :: n in selected.entries <==> n in value && n in group.GetNames())
        && (forall n :: n in selected.entries ==> selected.entries[n] == value[n]))
    {
      match this
      case Leaf(l) => l.valueOf(l.name, value)
      case Relationship(g) => Entries(g.GetValueFromCollection(value))
    }
  }

  /** `prefix.` written `times` times in front of `name`: what `times` renames by one
      relationship make of a name. */
  function Prefixed(relationship: string, times: nat, name: string): string
  {
    if times == 0 then name else relationship + "." + Prefixed(relationship, times - 1, name)
  }

  /** Every rename lengthens the name by `relationship.`. */
  lemma {:induction false} PrefixedLength(relationship: string, times: nat, name: string)
    ensures |Prefixed(relationship, times, name)| == |name| + times * (|relationship| + 1)
    decreases times
  {
    if times > 0 {
      PrefixedLength(relationship, times - 1, name);
    }
  }

  /** Renaming only ever adds in front: the original name stays as the suffix. */
  lemma {:induction false} PrefixedKeepsName(relationship: string, times: nat, name: string)
    ensures var p := Prefixed(relationship, times, name);
      |p| >= |name| && p[|p| - |name|..] == name
    decreases times
  {
    if times > 0 {
      PrefixedKeepsName(relationship, times - 1, name);
      var q := Prefixed(relationship, times - 1, name);
      var front := relationship + ".";
      assert Prefixed(relationship, times, name) == front + q;
      assert (front + q)[|front| + |q| - |name|..] == q[|q| - |name|..];
    }
  }

  /** The largest height among the given filters. */
  ghost function MaxHeight<V>(fs: seq<FilterContract<V>>): (h: nat)
    ensures forall i :: 0 <= i < |fs| ==> fs[i].Height() <= h
  {
    if fs == [] then 0 else
      var rest := MaxHeight(fs[1..]);
      assert forall i :: 1 <= i < |fs| ==> fs[i] == fs[1..][i - 1];
      if fs[0].Height() < rest then rest else fs[0].Height()
  }

  /** No leaf among `fs` lies under the filter `fs[j]`. */
  ghost predicate NoLeafBelow<V>(fs: seq<FilterContract<V>>, j: nat)
    requires j < |fs|
  {
    forall k :: 0 <= k < |fs| && fs[k].Leaf? ==> fs[k].leaf !in fs[j].Footprint()
  }

  /** What building a group over `fs` does to `fs`: every supplied object has its name
      prefixed once per time it was supplied, and a nested group none of whose leaves
      was itself supplied keeps its names: the outer prefix does not reach inside it. */
  twostate predicate Renamed<V>(relationship: string, fs: seq<FilterContract<V>>)
    requires forall i :: 0 <= i < |fs| ==> fs[i].Valid()
    reads set i | 0 <= i < |fs| :: fs[i].Object()
    reads set i, l | 0 <= i < |fs| && l in fs[i].Footprint() :: l
  {
    && (forall i :: 0 <= i < |fs| ==>
          fs[i].Name() == Prefixed(relationship, Occurrences(fs, |fs|, fs[i]), old(fs[i].Name())))
    && (forall i :: 0 <= i < |fs| && fs[i].Relationship? && NoLeafBelow(fs, i) ==>
          fs[i].GetNames() == old(fs[i].GetNames()))
  }

  /** The current names of `fs`, in input order. */
  ghost function NamesOf<V>(fs: seq<FilterContract<V>>): (ns: seq<string>)
    reads set i | 0 <= i < |fs| :: fs[i].Object()
    ensures |ns| == |fs| && forall j :: 0 <= j < |fs| ==> ns[j] == fs[j].Name()
  {
    seq(|fs|, j requires 0 <= j < |fs| reads set i | 0 <= i < |fs| :: fs[i].Object() => fs[j].Name())
  }

  /** `names` after one rename of the object `f`: every entry of `fs` holding `f` gains
      `relationship.`, the others are as they were. */
  function Bump<V>(names: seq<string>, fs: seq<FilterContract<V>>, f: FilterContract<V>, relationship: string): seq<string>
    requires |names| == |fs|
  {
    seq(|fs|, j requires 0 <= j < |fs| => if fs[j] == f then relationship + "." + names[j] else names[j])
  }

  /** `$filter->name = $relationship . '.' . $filter->name` on one filter object: seen
      through any list `fs` of filters, the entries holding that object are renamed
      and the others keep their names. */
  method Rename<V>(f: FilterContract<V>, relationship: string, ghost fs: seq<FilterContract<V>>)
    modifies f.Object()
    ensures f.Name() == relationship + "." + old(f.Name())
    ensures NamesOf(fs) == Bump(old(NamesOf(fs)), fs, f, relationship)
  {
    match f {
      case Leaf(l) => l.name := relationship + "." + l.name;
      case Relationship(g) => g.name := relationship + "." + g.name;
    }
  }

  /** How many of the first `k` supplied filters are `f` (the same object). */
  function Occurrences<V>(fs: seq<FilterContract<V>>, k: nat, f: FilterContract<V>): nat
    requires k <= |fs|
  {
    if k == 0 then 0 else Occurrences(fs, k - 1, f) + (if fs[k - 1] == f then 1 else 0)
  }

  /** Among pairwise different filters, each of the first `k` occurs once and the others not at all. */
  lemma {:induction false} OccurrencesOfDistinct<V>(fs: seq<FilterContract<V>>, k: nat, i: nat)
    requires k <= |fs| && i < |fs|
    requires forall a, b :: 0 <= a < b < |fs| ==> fs[a] != fs[b]
    ensures Occurrences(fs, k, fs[i]) == if i < k then 1 else 0
  {
    if k > 0 {
      OccurrencesOfDistinct(fs, k - 1, i);
    }
  }

  /** The names of `fs` once its first `k` entries have been renamed in order, from names `orig`. */
  function PrefixedNames<V>(relationship: string, fs: seq<FilterContract<V>>, k: nat, orig: seq<string>): (ns: seq<string>)
    requires k <= |fs| && |orig| == |fs|
    ensures |ns| == |fs|
  {
    if k == 0 then orig else Bump(PrefixedNames(relationship, fs, k - 1, orig), fs, fs[k - 1], relationship)
  }

  /** After `k` renames, each entry carries `relationship.` once for every one of the
      first `k` entries that holds the same object. */
  lemma {:induction false} PrefixedNamesAt<V>(relationship: string, fs: seq<FilterContract<V>>, k: nat, orig: seq<string>, j: nat)
    requires k <= |fs| && |orig| == |fs| && j < |fs|
    ensures PrefixedNames(relationship, fs, k, orig)[j] == Prefixed(relationship, Occurrences(fs, k, fs[j]), orig[j])
  {
    if k > 0 {
      PrefixedNamesAt(relationship, fs, k - 1, orig, j);
      OneMoreOccurrence(relationship, fs, k - 1, fs[j], orig[j]);
    }
  }

  /** Going one filter further adds one `relationship.` exactly when that filter is `f`. */
  lemma OneMoreOccurrence<V>(relationship: string, fs: seq<FilterContract<V>>, i: nat, f: FilterContract<V>, name: string)
    requires i < |fs|
    ensures Prefixed(relationship, Occurrences(fs, i + 1, f), name)
      == if fs[i] == f then relationship + "." + Prefixed(relationship, Occurrences(fs, i, f), name)
         else Prefixed(relationship, Occurrences(fs, i, f), name)
  {
  }

  /** A filter supplied once is renamed once: with no object supplied twice, each
      supplied filter's name becomes exactly `relationship.` followed by its old name. */
  lemma RenamedOnce<V>(relationship: string, fs: seq<FilterContract<V>>, i: nat, name: string)
    requires i < |fs|
    requires forall a, b :: 0 <= a < b < |fs| ==> fs[a] != fs[b]
    ensures Prefixed(relationship, Occurrences(fs, |fs|, fs[i]), name) == relationship + "." + name
  {
    OccurrencesOfDistinct(fs, |fs|, i);
  }

  /** The loop of the renaming `map`: each supplied filter, in input order, is renamed once. */
  method RenameEach<V>(relationship: string, fs: seq<FilterContract<V>>)
    modifies set i | 0 <= i < |fs| :: fs[i].Object()
    ensures NamesOf(fs) == PrefixedNames(relationship, fs, |fs|, old(NamesOf(fs)))
  {
    ghost var orig := NamesOf(fs);
    for i := 0 to |fs|
      invariant NamesOf(fs) == PrefixedNames(relationship, fs, i, orig)
    {
      Rename(fs[i], relationship, fs);
    }
  }

  /** The renaming `map` of the constructor: each supplied filter, in input order,
      gets `relationship.` put in front of its current name. */
  method RenameAll<V>(relationship: string, fs: seq<FilterContract<V>>)
    requires forall i :: 0 <= i < |fs| ==> fs[i].Valid()
    modifies set i | 0 <= i < |fs| :: fs[i].Object()
    ensures Renamed(relationship, fs)
  {
    ghost var orig := NamesOf(fs);
    RenameEach(relationship, fs);
    forall j | 0 <= j < |fs|
      ensures fs[j].Name() == Prefixed(relationship, Occurrences(fs, |fs|, fs[j]), old(fs[j].Name()))
    {
      PrefixedNamesAt(relationship, fs, |fs|, orig, j);
    }
    forall j | 0 <= j < |fs| && fs[j].Relationship? && NoLeafBelow(fs, j)
      ensures fs[j].GetNames() == old(fs[j].GetNames())
    {
      forall l | l in fs[j].Footprint()
        ensures unchanged(l)
      {
        forall k | 0 <= k < |fs|
          ensures fs[k].Object() != l
        {
          if fs[k].Leaf? {
            assert fs[k].leaf !in fs[j].Footprint();
          }
        }
      }
    }
  }

  /** `AllowedRelationshipFilter`: the group. */
  class AllowedRelationshipFilter<V> {
    const relationship: string
    const allowedFilters: seq<FilterContract<V>>
    /** The property an enclosing group's rename creates; never read by this class.
        It starts out empty, as PHP reads an undeclared property as null. */
    var name: string
    ghost const Height: nat
    ghost const Leaves: set<LeafFilter<V>>

    ghost predicate Valid()
      decreases Height, 0, 0
    {
      forall i :: 0 <= i < |allowedFilters| ==>
        && allowedFilters[i].Height() < Height
        && allowedFilters[i].Valid()
        && allowedFilters[i].Footprint() <= Leaves
    }

    /** `new AllowedRelationshipFilter($relationship, ...$allowedFilters)`. */
    constructor (relationship: string, fs: seq<FilterContract<V>>)
      requires forall i :: 0 <= i < |fs| ==> fs[i].Valid()
      modifies set i | 0 <= i < |fs| :: fs[i].Object()
      ensures Valid()
      ensures this.relationship == relationship && allowedFilters == fs && name == ""
      ensures Leaves == set i, l | 0 <= i < |fs| && l in fs[i].Footprint() :: l
      ensures Renamed(relationship, fs)
    {
      RenameAll(relationship, fs);
      this.relationship := relationship;
      allowedFilters := fs;
      name := "";
      Height := MaxHeight(fs) + 1;
      Leaves := set i, l | 0 <= i < |fs| && l in fs[i].Footprint() :: l;
      new;
      assert Valid() by {
        forall i | 0 <= i < |fs|
          ensures fs[i].Footprint() <= Leaves
        {
        }
      }
    }

    /** `AllowedRelationshipFilter::group(...)`: the same as the constructor. */
    static method Group(relationship: string, fs: seq<FilterContract<V>>) returns (g: AllowedRelationshipFilter<V>)
      requires forall i :: 0 <= i < |fs| ==> fs[i].Valid()
      modifies set i | 0 <= i < |fs| :: fs[i].Object()
      ensures fresh(g) && g.Valid()
      ensures g.relationship == relationship && g.allowedFilters == fs && g.name == ""
      ensures g.Leaves == set i, l | 0 <= i < |fs| && l in fs[i].Footprint() :: l
      ensures Renamed(relationship, fs)
    {
      g := new AllowedRelationshipFilter(relationship, fs);
    }

    /** The children's name lists, from child `k` on (the `map` step of `getNames`). */
    function NameLists(k: nat): (ls: seq<seq<string>>)
      requires Valid() && k <= |allowedFilters|
      reads Leaves
      ensures |ls| == |allowedFilters| - k
      ensures forall j :: 0 <= j < |ls| ==> ls[j] == allowedFilters[k + j].GetNames()
      decreases Height, 0, |allowedFilters| - k
    {
      if k == |allowedFilters| then [] else [allowedFilters[k].GetNames()] + NameLists(k + 1)
    }

    /** `getNames()`: the children's names, flattened. */
    function GetNames(): (names: seq<string>)
      requires Valid()
      reads Leaves
      ensures names == Flatten(seq(|allowedFilters|, i requires 0 <= i < |allowedFilters| reads Leaves =>
                                   allowedFilters[i].GetNames()))
      decreases Height, 1, 0
    {
      var lists := NameLists(0);
      assert lists == seq(|allowedFilters|, i requires 0 <= i < |allowedFilters| reads Leaves =>
                          allowedFilters[i].GetNames());
      Flatten(lists)
    }

    /** `isRequested($request)`: the request's filters mention one of the group's names. */
    function IsRequested(filters: map<string, V>): (requested: bool)
      requires Valid()
      reads Leaves
      ensures requested <==> exists n :: n in filters && n in GetNames()
      ensures requested <==> exists i :: 0 <= i < |allowedFilters| && HasAny(filters, allowedFilters[i].GetNames())
    {
      IsRequestedByChild(filters);
      HasAny(filters, GetNames())
    }

    /** `getValueFromRequest($request)`: the request's filters under the group's names. */
    function GetValueFromRequest(filters: map<string, V>): (value: map<string, V>)
      requires Valid()
      reads Leaves
      ensures forall n :: n in value <==> n in filters && n in GetNames()
      ensures forall n :: n in value ==> value[n] == filters[n]
      ensures value == map[] <==> !IsRequested(filters)
    {
      HasAnyIffOnlyNonEmpty(filters, GetNames());
      Only(filters, GetNames())
    }

    /** `getValueFromCollection($value)`: the collection's entries under the group's names. */
    function GetValueFromCollection(value: map<string, V>): (sub: map<string, V>)
      requires Valid()
      reads Leaves
      ensures forall n :: n in sub ==> n in value && n in GetNames() && sub[n] == value[n]
      ensures forall n :: n in value && n in GetNames() ==> n in sub
    {
      Only(value, GetNames())
    }

    /** `hasDefault()`: a group never has a default value. */
    function HasDefault(): (has: bool)
      ensures !has
    {
      false
    }

    /** `getDefault()`: null. */
    function GetDefault(): (default: Option<V>)
      ensures default == None
    {
      None
    }

    /** The body of the `where` closure in `filter`: each child in order, called once
        with its own selection of `value`. */
    method ChildCalls(value: map<string, V>) returns (calls: seq<Call<V>>)
      requires Valid()
      ensures |calls| == |allowedFilters|
      ensures forall i :: 0 <= i < |calls| ==>
        calls[i] == Call(i, allowedFilters[i].GetValueFromCollection(value))
    {
      calls := [];
      for i := 0 to |allowedFilters|
        invariant |calls| == i
        invariant forall j :: 0 <= j < i ==>
          calls[j] == Call(j, allowedFilters[j].GetValueFromCollection(value))
      {
        calls := calls + [Call(i, allowedFilters[i].GetValueFromCollection(value))];
      }
    }

    /** `filter($query, $value)`: one grouped `where` holding one call per child, in order. */
    method Filter(query: QueryBuilder<V>, value: map<string, V>)
      requires Valid()
      modifies query
      ensures |query.clauses| == |old(query.clauses)| + 1
      ensures query.clauses[..|old(query.clauses)|] == old(query.clauses)
      ensures var calls := query.clauses[|old(query.clauses)|].calls;
        && |calls| == |allowedFilters|
        && forall i :: 0 <= i < |allowedFilters| ==>
             calls[i] == Call(i, allowedFilters[i].GetValueFromCollection(value))
    {
      var calls := ChildCalls(value);
      query.Where(calls);
    }

    /** `getNames` is the in-order concatenation of the children's `getNames`: child `i`'s
        whole list sits between the lists of the children before it and after it. */
    lemma NamesSegment(i: nat)
      requires Valid() && i < |allowedFilters|
      ensures GetNames() == Flatten(NameLists(0)[..i]) + allowedFilters[i].GetNames() + Flatten(NameLists(0)[i + 1..])
    {
      FlattenSegment(NameLists(0), i);
    }

    /** A name belongs to the group exactly when it belongs to one of its children. */
    lemma NamesMembership(n: string)
      requires Valid()
      ensures n in GetNames() <==> exists i :: 0 <= i < |allowedFilters| && n in allowedFilters[i].GetNames()
    {
      FlattenMembership(NameLists(0), n);
      assert forall i :: 0 <= i < |allowedFilters| ==> NameLists(0)[i] == allowedFilters[i].GetNames();
    }

    /** A name two children share is listed twice: no de-duplication. */
    lemma NamesKeepDuplicates(i: nat, j: nat, n: string)
      requires Valid() && i < j < |allowedFilters|
      requires n in allowedFilters[i].GetNames() && n in allowedFilters[j].GetNames()
      ensures exists p, q :: 0 <= p < q < |GetNames()| && GetNames()[p] == n && GetNames()[q] == n
    {
      FlattenKeepsDuplicates(NameLists(0), i, j, n);
      assert GetNames() == Flatten(NameLists(0));
    }

    /** The group is requested exactly when some child's names are in the request. */
    lemma IsRequestedByChild(filters: map<string, V>)
      requires Valid()
      ensures HasAny(filters, GetNames()) <==>
        exists i :: 0 <= i < |allowedFilters| && HasAny(filters, allowedFilters[i].GetNames())
    {
      var names := GetNames();
      if HasAny(filters, names) {
        var p :| 0 <= p < |names| && names[p] in filters;
        NamesMembership(names[p]);
        var i :| 0 <= i < |allowedFilters| && names[p] in allowedFilters[i].GetNames();
        var child := allowedFilters[i].GetNames();
        var q :| 0 <= q < |child| && child[q] == names[p];
        assert child[q] in filters;
      }
      if exists i :: 0 <= i < |allowedFilters| && HasAny(filters, allowedFilters[i].GetNames()) {
        var i :| 0 <= i < |allowedFilters| && HasAny(filters, allowedFilters[i].GetNames());
        var child := allowedFilters[i].GetNames();
        var q :| 0 <= q < |child| && child[q] in filters;
        NamesMembership(child[q]);
        var p :| 0 <= p < |names| && names[p] == child[q];
        assert names[p] in filters;
      }
    }

    /** Selecting from an already selected collection changes nothing. */
    lemma GetValueFromCollectionIdempotent(value: map<string, V>)
      requires Valid()
      ensures GetValueFromCollection(GetValueFromCollection(value)) == GetValueFromCollection(value)
    {
      OnlyIdempotent(value, GetNames());
    }

    /** A nested group child sees the same value whether `filter` is handed the whole
        collection or only the group's own selection of it. */
    lemma NestedSelectionUnaffected(value: map<string, V>, i: nat)
      requires Valid() && i < |allowedFilters| && allowedFilters[i].Relationship?
      ensures allowedFilters[i].GetValueFromCollection(GetValueFromCollection(value))
           == allowedFilters[i].GetValueFromCollection(value)
    {
      var child := allowedFilters[i].group;
      forall n | n in child.GetNames()
        ensures n in GetNames()
      {
        NamesMembership(n);
      }
      OnlyNarrowing(value, GetNames(), child.GetNames());
    }
  }
}
