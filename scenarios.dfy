/**
 Concrete groups built the way callers build them, with what the group promises
 about each. The leaves answer to their own name only, as the usual simple
 filters do; nothing else about them is assumed.
 */
module Scenarios {
  import opened Collections
  import opened RelationshipFilters

  /** The dotted names the scenarios below spell out. The solver does not evaluate a
      concatenation of string literals by itself, so these are stated once here and
      brought in where a scenario compares a renamed filter's name with a literal. */
  lemma DottedNames()
    ensures "author" + "." + "name" == "author.name"
    ensures "post" + "." + "" == "post."
    ensures "post" + "." + "title" == "post.title"
    ensures "author" + "." + "n" == "author.n"
    ensures "post" + "." + "author.n" == "post.author.n"
    ensures Prefixed("a", 2, "n") == "a.a.n"
  {
  }

  lemma FlattenTwo(a: seq<string>, b: seq<string>)
    ensures Flatten([a, b]) == a + b
  {
    assert [a, b][1..] == [b];
  }

  /** A simple filter named `name` that answers to exactly that name. */
  method NamedLeaf(name: string) returns (f: FilterContract<string>)
    ensures f.Leaf? && fresh(f.leaf) && f.leaf.name == name
    ensures forall n :: f.leaf.namesOf(n) == [n]
  {
    var leaf := new LeafFilter(name, (n: string) => [n], (n: string, m: map<string, string>) => Entries(m));
    f := Leaf(leaf);
  }

  /** `group('author', name)` over a fresh simple filter `name`. */
  method AuthorGroup() returns (g: AllowedRelationshipFilter<string>, name: FilterContract<string>)
    ensures fresh(g) && name.Leaf? && fresh(name.leaf)
    ensures g.Valid() && g.allowedFilters == [name] && g.Leaves == {name.leaf} && g.name == ""
    ensures name.leaf.name == "author.name"
    ensures g.GetNames() == ["author.name"]
  {
    DottedNames();
    name := NamedLeaf("name");
    g := AllowedRelationshipFilter.Group("author", [name]);
    assert Occurrences([name], 1, name) == 1;
    assert g.NameLists(0) == [["author.name"]];
    assert Flatten([["author.name"]]) == ["author.name"] + Flatten([]);
    assert g.Leaves == {name.leaf};
  }

  /** The leaf of `group('author', name)` becomes `author.name`; a request naming it
      selects the group, one naming only something else does not, and the value
      taken from a request keeps only the group's entry. */
  method AuthorRequests() returns (names: seq<string>, hit: bool, miss: bool, selected: map<string, string>)
    ensures names == ["author.name"]
    ensures hit && !miss
    ensures selected == map["author.name" := "x"]
  {
    var g, _ := AuthorGroup();
    names := g.GetNames();
    hit := g.IsRequested(map["author.name" := "x"]);
    assert "author.name" in map["author.name" := "x"] && names[0] == "author.name";
    miss := g.IsRequested(map["other" := "y"]);
    selected := g.GetValueFromRequest(map["author.name" := "x", "other" := "y"]);
  }

  /** `group('post', group('author', name), title)`: both children are renamed once, and
      the nested group keeps the names it had. */
  method PostGroup() returns (outer: AllowedRelationshipFilter<string>, inner: AllowedRelationshipFilter<string>,
                              title: FilterContract<string>)
    ensures fresh(outer) && fresh(inner)
    ensures outer.Valid() && outer.allowedFilters == [Relationship(inner), title]
    ensures inner.Valid() && inner.GetNames() == ["author.name"] && inner.name == "post."
    ensures title.Leaf? && title.leaf.name == "post.title" && forall n :: title.leaf.namesOf(n) == [n]
  {
    DottedNames();
    var name;
    inner, name := AuthorGroup();
    title := NamedLeaf("title");
    var fs := [Relationship(inner), title];
    assert NoLeafBelow(fs, 0);
    outer := AllowedRelationshipFilter.Group("post", fs);
    RenamedOnce("post", fs, 0, "");
    RenamedOnce("post", fs, 1, "title");
  }

  /** The names of the `post` group: the nested group's, then the renamed title. */
  method PostNames() returns (outer: AllowedRelationshipFilter<string>, inner: AllowedRelationshipFilter<string>)
    ensures fresh(outer) && fresh(inner)
    ensures outer.Valid() && |outer.allowedFilters| == 2 && outer.allowedFilters[0] == Relationship(inner)
    ensures inner.Valid() && inner.GetNames() == ["author.name"] && inner.name == "post."
    ensures outer.GetNames() == ["author.name", "post.title"]
  {
    var title;
    outer, inner, title := PostGroup();
    assert outer.NameLists(1) == [["post.title"]];
    assert outer.NameLists(0) == [["author.name"], ["post.title"]];
    assert Flatten([["post.title"]]) == ["post.title"] + Flatten([]);
  }

  /** A group nested in another: the outer prefix reaches the outer group's own leaf
      but not the names inside the nested group, whose stray `name` property is the
      only thing the outer rename writes. */
  method NestedGroup() returns (names: seq<string>, innerNames: seq<string>, strayName: string)
    ensures names == ["author.name", "post.title"]
    ensures innerNames == ["author.name"]
    ensures strayName == "post."
  {
    var outer, inner := PostNames();
    names := outer.GetNames();
    innerNames := inner.GetNames();
    strayName := inner.name;
  }

  /** `group('author', n)` over a fresh simple filter `n`. */
  method AuthorOverN() returns (inner: AllowedRelationshipFilter<string>, n: FilterContract<string>)
    ensures fresh(inner) && n.Leaf? && fresh(n.leaf)
    ensures inner.Valid() && inner.allowedFilters == [n]
    ensures n.leaf.name == "author.n" && forall m :: n.leaf.namesOf(m) == [m]
  {
    DottedNames();
    n := NamedLeaf("n");
    inner := AllowedRelationshipFilter.Group("author", [n]);
    assert Occurrences([n], 1, n) == 1;
  }

  /** `group('post', group('author', n), n)`: the leaf `n` is one object, renamed by
      both groups. */
  method SharedLeafGroups() returns (outer: AllowedRelationshipFilter<string>, inner: AllowedRelationshipFilter<string>,
                                     n: FilterContract<string>)
    ensures outer.Valid() && outer.allowedFilters == [Relationship(inner), n]
    ensures inner.Valid() && inner.allowedFilters == [n]
    ensures n.Leaf? && n.leaf.name == "post.author.n" && forall m :: n.leaf.namesOf(m) == [m]
  {
    DottedNames();
    inner, n := AuthorOverN();
    var fs := [Relationship(inner), n];
    outer := AllowedRelationshipFilter.Group("post", fs);
    RenamedOnce("post", fs, 1, "author.n");
  }

  /** Here the outer prefix does reach the nested group's names: they are those of the
      shared leaf, which now carries both prefixes. */
  method SharedLeaf() returns (innerNames: seq<string>, outerNames: seq<string>)
    ensures innerNames == ["post.author.n"]
    ensures outerNames == ["post.author.n", "post.author.n"]
  {
    var outer, inner, n := SharedLeafGroups();
    innerNames := inner.GetNames();
    assert inner.NameLists(0) == [["post.author.n"]];
    outerNames := outer.GetNames();
    assert outer.NameLists(0) == [["post.author.n"], ["post.author.n"]];
    FlattenTwo(["post.author.n"], ["post.author.n"]);
  }

  /** The same filter object passed twice is renamed twice, and its names are listed twice. */
  method SameFilterTwice() returns (leafName: string, names: seq<string>)
    ensures leafName == "a.a.n"
    ensures names == ["a.a.n", "a.a.n"]
  {
    DottedNames();
    var n := NamedLeaf("n");
    var g := AllowedRelationshipFilter.Group("a", [n, n]);
    assert Occurrences([n, n], 1, n) == 1;
    assert Occurrences([n, n], 2, n) == 2;
    leafName := n.leaf.name;
    assert g.NameLists(1) == [["a.a.n"]];
    assert g.NameLists(0) == [["a.a.n"], ["a.a.n"]];
    assert Flatten([["a.a.n"], ["a.a.n"]]) == ["a.a.n"] + Flatten([["a.a.n"]]);
    assert Flatten([["a.a.n"]]) == ["a.a.n"] + Flatten([]);
    names := g.GetNames();
  }

  /** A group whose only name is `author.name` selects just that entry from a value
      with entries for other names too. */
  lemma AuthorSelection(g: AllowedRelationshipFilter<string>)
    requires g.Valid() && g.GetNames() == ["author.name"]
    ensures g.GetValueFromCollection(map["author.name" := "x", "post.title" := "y", "other" := "z"])
            == map["author.name" := "x"]
  {
    var selected := g.GetValueFromCollection(map["author.name" := "x", "post.title" := "y", "other" := "z"]);
    assert selected.Keys == {"author.name"};
  }

  /** `filter` on the nested group above adds one grouped `where` whose calls go to
      each child in order; the nested group receives only its own entries. */
  method FilterTrace() returns (clauses: seq<Clause<string>>)
    ensures |clauses| == 1 && |clauses[0].calls| == 2
    ensures clauses[0].calls[0].child == 0 && clauses[0].calls[1].child == 1
    ensures clauses[0].calls[0].value == Entries(map["author.name" := "x"])
  {
    var outer, inner := PostNames();
    AuthorSelection(inner);
    var query := new QueryBuilder();
    outer.Filter(query, map["author.name" := "x", "post.title" := "y", "other" := "z"]);
    clauses := query.clauses;
  }
}
