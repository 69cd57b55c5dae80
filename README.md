# Relationship filter groups, modelled in Dafny

This project models `AllowedRelationshipFilter` from a Laravel query-builder add-on.
It is a composite allowed filter: `AllowedRelationshipFilter::group('author', $a, $b)` groups
child filters under a relationship name. It namespaces them by renaming each child in place to
`author.<name>`, and it acts as one filter itself. It reports the names of all its children,
says whether a request mentions any of them and picks out the request's or a collection's
entries under those names. Its `filter` applies every child, in order, inside one bracketed
`where` block, each child receiving only its own selection of the value.

Filters are objects in the model, as in PHP:
- `LeafFilter` stands for any simple allowed filter. It has a mutable public `name`. Its name list and its value selection are unknown functions of that name.
- `AllowedRelationshipFilter` is the group. It holds `relationship` and the child list `allowedFilters`, and its `name` field is the property an enclosing group's rename creates on it.
- `FilterContract` is "any allowed filter": a leaf or a group.

The constructor renames the supplied objects themselves. An object passed twice, or to two groups, is renamed every time. `filter` is modelled as a method that appends one `GroupedWhere` clause to a `QueryBuilder` object. The clause records, in order, which child was called and with what value.

Files:
- `collections.dfy`: module `Collections`, the meaning of the Laravel `flatten`, `hasAny` and `only` used by the group.
- `relationship_filter.dfy`: module `RelationshipFilters`, the filters, the group and the renaming.
- `scenarios.dfy`: module `Scenarios`, concrete groups such as `group('post', group('author', name), title)` and what they compute.

Nested groups: the prefix is written to a `name` property. A nested `AllowedRelationshipFilter`
never reads that property, and its `getNames` is built only from its own children. So the outer
prefix does not reach the names inside a nested group, unless one of the nested group's leaves is
also passed to the outer group. Such a leaf is one object, renamed by both groups.
`RelationshipFilters.Renamed` states the first part for every nested group that shares no leaf
with the outer group's arguments. `Scenarios.NestedGroup` shows `post(author(name), title)`
listing `author.name`, and `Scenarios.SharedLeaf` shows `post(author(n), n)` listing
`post.author.n` from the nested group.

The code does not check that `relationship` is non-empty, and the model accepts any string.

## Model

| member | source | states |
|---|---|---|
| RelationshipFilters.AllowedRelationshipFilter.constructor | src/AllowedRelationshipFilter.php:16-24 | The group stores `relationship` as given and the supplied children as given, in input order and with the same count, and is well formed. Every supplied object's name gains `relationship.` once per time it was supplied. A supplied nested group none of whose leaves was itself supplied keeps its names. |
| RelationshipFilters.AllowedRelationshipFilter.Group | src/AllowedRelationshipFilter.php:26-29 | `group(r, fs...)` returns a fresh group in exactly the state the constructor gives, with the same effect on the children. |
| RelationshipFilters.Rename | src/AllowedRelationshipFilter.php:21 | One rename puts `relationship.` in front of that object's name. Every list entry holding the same object sees the new name, and entries holding other objects keep theirs. |
| RelationshipFilters.RenameEach | src/AllowedRelationshipFilter.php:20-23 | The renaming loop leaves the supplied filters with the names obtained by renaming each entry once, in input order, starting from their names before the loop. |
| RelationshipFilters.RenameAll | src/AllowedRelationshipFilter.php:20-23 | After the `map`, each supplied filter's name is its old name prefixed once per occurrence of that object among the supplied filters. Nested groups not sharing a supplied leaf report the same names as before. |
| RelationshipFilters.PrefixedNamesAt | src/AllowedRelationshipFilter.php:20-23 | After the first `k` renames, entry `j` carries `relationship.` once for each of the first `k` entries holding the same object. |
| RelationshipFilters.OneMoreOccurrence | src/AllowedRelationshipFilter.php:20-23 | Taking one more supplied filter into account adds one prefix exactly when that filter is the same object. |
| RelationshipFilters.OccurrencesOfDistinct | src/AllowedRelationshipFilter.php:20-23 | When no object is supplied twice, each of the first `k` filters has been seen exactly once and the rest not at all. |
| RelationshipFilters.RenamedOnce | src/AllowedRelationshipFilter.php:20-23 | When no object is supplied twice, each child's name after construction is exactly `relationship + "." + originalName`. |
| RelationshipFilters.PrefixedLength | src/AllowedRelationshipFilter.php:21 | Each rename lengthens a name by the relationship's length plus one (the dot). |
| RelationshipFilters.PrefixedKeepsName | src/AllowedRelationshipFilter.php:21 | Renaming only adds in front: the original name remains the suffix of the renamed one. |
| RelationshipFilters.AllowedRelationshipFilter.NameLists | src/AllowedRelationshipFilter.php:48-49 | The `map` step gives one name list per child from child `k` on, and list `j` is child `k + j`'s own `getNames`, in stored order. |
| RelationshipFilters.AllowedRelationshipFilter.GetNames | src/AllowedRelationshipFilter.php:46-51 | The group's names are the flattening of the list whose entry `i` is child `i`'s `getNames`, children in stored order. |
| RelationshipFilters.FilterContract.GetNames | src/AllowedRelationshipFilter.php:49 | `$allowedFilter->getNames()` on a child: a leaf's names are its own function of its current, possibly renamed, name; a nested group answers with its own `getNames`. |
| RelationshipFilters.FilterContract.GetValueFromCollection | src/AllowedRelationshipFilter.php:39 | `$allowedFilter->getValueFromCollection($value)` on a child: a leaf's own selection made with its current name; for a nested group, exactly the entries of the value under that group's names, values unchanged. |
| RelationshipFilters.AllowedRelationshipFilter.NamesSegment | src/AllowedRelationshipFilter.php:46-51 | `getNames` is the in-order concatenation of the children's lists: child `i`'s whole list sits, unchanged, between the names of the children before it and those after it. |
| RelationshipFilters.AllowedRelationshipFilter.NamesMembership | src/AllowedRelationshipFilter.php:46-51 | A name is among the group's names exactly when it is among some child's names. |
| RelationshipFilters.AllowedRelationshipFilter.NamesKeepDuplicates | src/AllowedRelationshipFilter.php:46-51 | A name reported by two children appears twice in `getNames`, with no de-duplication. |
| RelationshipFilters.AllowedRelationshipFilter.IsRequested | src/AllowedRelationshipFilter.php:53-56 | True exactly when some key of the request's filters is one of the group's names. Equivalently, it is true exactly when the request mentions a name of some child. |
| RelationshipFilters.AllowedRelationshipFilter.IsRequestedByChild | src/AllowedRelationshipFilter.php:53-56 | `hasAny` over the flattened names holds exactly when it holds over one child's names. |
| RelationshipFilters.AllowedRelationshipFilter.GetValueFromRequest | src/AllowedRelationshipFilter.php:58-61 | Exactly the request entries whose key is one of the group's names, values unchanged, absent names omitted. It is empty exactly when the group is not requested. |
| RelationshipFilters.AllowedRelationshipFilter.GetValueFromCollection | src/AllowedRelationshipFilter.php:63-66 | A sub-map of the collection holding every entry under one of the group's names and nothing else. |
| RelationshipFilters.AllowedRelationshipFilter.GetValueFromCollectionIdempotent | src/AllowedRelationshipFilter.php:63-66 | Selecting again from the group's own selection changes nothing. |
| RelationshipFilters.AllowedRelationshipFilter.NestedSelectionUnaffected | src/AllowedRelationshipFilter.php:63-66 | A nested group child selects the same entries from the outer group's selection as from the whole collection, so the outer selection loses it nothing. |
| RelationshipFilters.AllowedRelationshipFilter.HasDefault | src/AllowedRelationshipFilter.php:68-71 | Always false. |
| RelationshipFilters.AllowedRelationshipFilter.GetDefault | src/AllowedRelationshipFilter.php:73-76 | Always null (`None`). |
| RelationshipFilters.AllowedRelationshipFilter.ChildCalls | src/AllowedRelationshipFilter.php:35-42 | The `each` loop calls every child exactly once, in stored order, and call `i` hands child `i` its own `getValueFromCollection` of the value. |
| RelationshipFilters.AllowedRelationshipFilter.Filter | src/AllowedRelationshipFilter.php:31-44 | In the recorded trace of the query, `filter` adds exactly one grouped `where` entry after the earlier entries. That entry holds one call per child, in order, each with that child's selection of the value. |
| RelationshipFilters.QueryBuilder.Where | src/AllowedRelationshipFilter.php:33 | In the recorded trace, `where(closure)` appends one grouped entry holding what the closure did, after the existing entries. |
| Collections.Only | src/AllowedRelationshipFilter.php:65 | `only` keeps exactly the entries whose key is listed, with their values. |
| Collections.HasAny | src/AllowedRelationshipFilter.php:55 | `hasAny($keys)` holds exactly when some listed key is a key of the collection, and is false when no keys are listed. |
| Collections.HasAnyIffOnlyNonEmpty | src/AllowedRelationshipFilter.php:53-61 | `hasAny` over a key list holds exactly when `only` with the same keys keeps at least one entry. |
| Collections.OnlyIdempotent | src/AllowedRelationshipFilter.php:65 | Applying `only` twice with the same keys gives the single application. |
| Collections.OnlyNarrowing | src/AllowedRelationshipFilter.php:39 | Selecting by a wider key list and then by a narrower one equals selecting by the narrower one directly. |
| Collections.Flatten | src/AllowedRelationshipFilter.php:50 | `flatten()` of no lists is empty and of one list is that list; with `FlattenSegment`, the inner lists follow one another, in order. |
| Collections.FlattenAppend | src/AllowedRelationshipFilter.php:50 | Flattening distributes over joining the outer list. |
| Collections.FlattenMembership | src/AllowedRelationshipFilter.php:50 | An element is in the flattened list exactly when it is in one of the inner lists. |
| Collections.FlattenSegment | src/AllowedRelationshipFilter.php:50 | Inner list `i` appears whole, in place, between the flattened lists before and after it. |
| Collections.FlattenKeepsDuplicates | src/AllowedRelationshipFilter.php:50 | An element present in two inner lists occurs at two positions of the flattened list. |
| Scenarios.AuthorGroup | src/AllowedRelationshipFilter.php:16-29 | `group('author', name)` renames the leaf to `author.name` and reports exactly `["author.name"]`. |
| Scenarios.AuthorRequests | src/AllowedRelationshipFilter.php:53-61 | A request naming `author.name` selects the group and one naming only something else does not. The value taken from a request keeps only the `author.name` entry. |
| Scenarios.PostGroup | src/AllowedRelationshipFilter.php:20-23 | In `group('post', group('author', name), title)` the title becomes `post.title`. The nested group's stray `name` becomes `post.` and its names stay `["author.name"]`. |
| Scenarios.PostNames | src/AllowedRelationshipFilter.php:46-51 | The outer group of that nesting reports `["author.name", "post.title"]`. |
| Scenarios.NestedGroup | src/AllowedRelationshipFilter.php:20-23 | When the nested group shares no leaf with the outer group's arguments, the outer prefix does not reach its names. It only writes the nested group's unused `name` property. |
| Scenarios.AuthorOverN | src/AllowedRelationshipFilter.php:16-29 | `group('author', n)` renames the leaf `n` to `author.n`. |
| Scenarios.SharedLeafGroups | src/AllowedRelationshipFilter.php:20-23 | In `group('post', group('author', n), n)` the shared leaf is renamed by both groups, to `post.author.n`. |
| Scenarios.SharedLeaf | src/AllowedRelationshipFilter.php:20-51 | Through a shared leaf the outer prefix does reach the nested group's names: they become `["post.author.n"]`, and the outer group lists that name twice. |
| Scenarios.SameFilterTwice | src/AllowedRelationshipFilter.php:20-23 | One object passed twice is renamed twice (`a.a.n`) and listed twice. |
| Scenarios.AuthorSelection | src/AllowedRelationshipFilter.php:63-66 | A group whose only name is `author.name` takes just the `author.name` entry from a value that also has entries under other names. |
| Scenarios.FilterTrace | src/AllowedRelationshipFilter.php:31-44 | `filter` on the nested group adds one clause with calls to child 0 and child 1, and the nested group receives only its own entry. |

## Left out

- Query building: what `where` and `QueryBuilder::for` do to the query, and the SQL they produce, belong to the host ORM. `filter` is modelled as a trace: one grouped entry holding the ordered child calls. The host drops a nested `where` whose closure added no conditions, so the trace entry is recorded even where the real query gains no clause.
- RelationshipFilters.AllowedRelationshipFilter.Filter: the children's own `filter` calls are recorded as (child position, value) pairs rather than performed. Their effects on the query, and the fresh `QueryBuilder::for` wrapper each child receives, are not modelled.
- Request parsing: `QueryBuilderRequest::filters()` is modelled as the map of filter names to values it yields.
- Collection order: requests and value collections are maps. The order in which `only` returns the surviving entries is not modelled, and neither is PHP's coercion of numeric-string keys.
- Simple filters: the other `AllowedFilterContract` classes are not part of this model. A leaf's `getNames` and `getValueFromCollection` are unknown functions of its current name, never assumed to be `[name]`. The leaf `filter`, `isRequested`, `getValueFromRequest` and default handling are not modelled.
- PHP dynamic properties: line 21 first reads `name` on a nested group, which declares no such property. That read raises an "Undefined property" warning (a notice before PHP 8) and gives null, which concatenates as the empty string, so a group's `name` starts as `""`. The write then creates an undeclared property, which raises a deprecation notice from PHP 8.2. Neither diagnostic is modelled. Under a host error handler that turns warnings into exceptions, constructing a group over a nested group aborts at that read; the model does not capture this.
- `collect(...)->map(...)` keeps the argument list's keys (integers for positional arguments, the parameter names for named ones); nothing in the group reads them. The model keeps the children as a sequence in the same order.
