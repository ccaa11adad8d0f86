/** What the catalog's two fingerprints are digests of, and when two inputs agree. */
module Fingerprints {
  import opened Text
  import opened Order
  import opened CatalogIndex
  import opened Generate

  // ---- The mapping ----

  /** One element of the JSON array that is hashed. */
  datatype MappingEntry = MappingEntry(id: string, cpes: seq<string>)

  function IdsIn(entries: seq<MappingEntry>): (ids: seq<string>)
    ensures |ids| == |entries| && forall i :: 0 <= i < |ids| ==> ids[i] == entries[i].id
  {
    if entries == [] then [] else [entries[0].id] + IdsIn(entries[1..])
  }

  /** The entry lists the repository's CPEs in order. */
  ghost predicate EntryRight(entry: MappingEntry, mapping: Mapping) {
    Sorted(entry.cpes, StrLe) && multiset(entry.cpes) == multiset(CpesOf(mapping, entry.id))
  }

  /** The array that is hashed: the IDs in order, each with its CPEs in order, repetitions kept. */
  ghost predicate IsMappingInput(entries: seq<MappingEntry>, ids: seq<string>, mapping: Mapping) {
    && Sorted(IdsIn(entries), StrLe) && multiset(IdsIn(entries)) == multiset(ids)
    && forall i :: 0 <= i < |entries| ==> EntryRight(entries[i], mapping)
  }

  /** What RepositoryMapping.Fingerprint hashes, built from sorted copies. */
  method MappingInput(repositoryIDs: seq<string>, mapping: Mapping) returns (entries: seq<MappingEntry>)
    ensures IsMappingInput(entries, repositoryIDs, mapping)
  {
    StrLeIsTotalOrder();
    var ids := Sort(repositoryIDs, StrLe);
    SortSorted(repositoryIDs, StrLe);
    entries := EntriesFor(ids, mapping);
    assert IdsIn(entries) == ids;
  }

  method EntriesFor(ids: seq<string>, mapping: Mapping) returns (entries: seq<MappingEntry>)
    ensures |entries| == |ids| && forall i :: 0 <= i < |ids| ==> entries[i].id == ids[i]
    ensures forall i :: 0 <= i < |entries| ==> EntryRight(entries[i], mapping)
  {
    entries := [];
    while |entries| < |ids|
      invariant |entries| <= |ids| && forall i :: 0 <= i < |entries| ==> entries[i].id == ids[i]
      invariant forall i :: 0 <= i < |entries| ==> EntryRight(entries[i], mapping)
    {
      var entry := EntryFor(ids[|entries|], mapping);
      entries := entries + [entry];
    }
  }

  method EntryFor(id: string, mapping: Mapping) returns (entry: MappingEntry)
    ensures entry.id == id && EntryRight(entry, mapping)
  {
    StrLeIsTotalOrder();
    SortSorted(CpesOf(mapping, id), StrLe);
    entry := MappingEntry(id, Sort(CpesOf(mapping, id), StrLe));
  }

  ghost predicate SameMapping(ids: seq<string>, mapping: Mapping, ids': seq<string>, mapping': Mapping) {
    && multiset(ids) == multiset(ids')
    && forall id :: id in ids ==> multiset(CpesOf(mapping, id)) == multiset(CpesOf(mapping', id))
  }

  /** The hashed array is the same exactly when the IDs are the same up to order and each of them has the same CPEs
      up to order; repetitions count. */
  lemma MappingInputIff(a: seq<MappingEntry>, ids: seq<string>, mapping: Mapping,
                        b: seq<MappingEntry>, ids': seq<string>, mapping': Mapping)
    requires IsMappingInput(a, ids, mapping) && IsMappingInput(b, ids', mapping')
    ensures a == b <==> SameMapping(ids, mapping, ids', mapping')
  {
    if a == b {
      forall id | id in ids ensures multiset(CpesOf(mapping, id)) == multiset(CpesOf(mapping', id)) {
        SameElements(ids, IdsIn(a), id);
        var i :| 0 <= i < |a| && IdsIn(a)[i] == id;
        assert EntryRight(a[i], mapping) && EntryRight(b[i], mapping');
      }
    }
    if SameMapping(ids, mapping, ids', mapping') {
      StrLeIsTotalOrder();
      SortedUnique(IdsIn(a), IdsIn(b), StrLe);
      assert |a| == |IdsIn(a)| == |IdsIn(b)| == |b|;
      forall i | 0 <= i < |a| ensures a[i] == b[i] {
        assert IdsIn(a)[i] == IdsIn(b)[i] && IdsIn(a)[i] in IdsIn(a);
        SameElements(ids, IdsIn(a), a[i].id);
        assert EntryRight(a[i], mapping) && EntryRight(b[i], mapping');
        SortedUnique(a[i].cpes, b[i].cpes, StrLe);
      }
    }
  }

  // ---- The packages ----

  function Line(p: (string, string)): string { p.0 + ['\0'] + p.1 }

  lemma {:induction false} TextCons(p: (string, string), rest: seq<(string, string)>)
    ensures TextOf([p] + rest) == Line(p) + "\n" + TextOf(rest)
  {
    if rest == [] {
      assert ([p] + rest)[..0] == [];
    } else {
      var n := |rest| - 1;
      TextCons(p, rest[..n]);
      assert ([p] + rest)[..|rest|] == [p] + rest[..n];
    }
  }

  /** IDs without NUL and newline, keys without newline. */
  predicate Clean(p: (string, string)) { '\0' !in p.0 && '\n' !in p.0 && '\n' !in p.1 }

  lemma LineDecodes(p: (string, string), s: string, q: (string, string), t: string)
    requires Clean(p) && Clean(q) && Line(p) + "\n" + s == Line(q) + "\n" + t
    ensures p == q && s == t
  {
    CutAtByte(Line(p), s, Line(q), t, '\n');
    CutAtByte(p.0, p.1, q.0, q.1, '\0');
  }

  /** The text can be read back, pair by pair. */
  lemma {:induction false} TextDecodes(a: seq<(string, string)>, b: seq<(string, string)>)
    requires (forall p :: p in a ==> Clean(p)) && (forall p :: p in b ==> Clean(p))
    requires TextOf(a) == TextOf(b)
    ensures a == b
  {
    if a != [] && b != [] {
      assert a == [a[0]] + a[1..] && b == [b[0]] + b[1..];
      TextCons(a[0], a[1..]);
      TextCons(b[0], b[1..]);
      LineDecodes(a[0], TextOf(a[1..]), b[0], TextOf(b[1..]));
      TextDecodes(a[1..], b[1..]);
    }
  }

  /** Two catalogs have the same package input exactly when they list the same (repository, key) pairs equally
      often. */
  lemma PackageInputIff(c: Catalog, ids: seq<string>, mapping: Mapping, query: Query,
                        d: Catalog, ids': seq<string>, mapping': Mapping, query': Query)
    requires Generates(c, ids, mapping, query) && Generates(d, ids', mapping', query')
    requires forall p :: p in Pairs(c.repositoryIDs, query) ==> Clean(p)
    requires forall p :: p in Pairs(d.repositoryIDs, query') ==> Clean(p)
    ensures c.packageInput == d.packageInput <==>
            multiset(Pairs(c.repositoryIDs, query)) == multiset(Pairs(d.repositoryIDs, query'))
  {
    var a, b := Pairs(c.repositoryIDs, query), Pairs(d.repositoryIDs, query');
    InputIff(a, b);
  }

  lemma InputIff(a: seq<(string, string)>, b: seq<(string, string)>)
    requires (forall p :: p in a ==> Clean(p)) && (forall p :: p in b ==> Clean(p))
    ensures TextOf(Sort(a, PairLe)) == TextOf(Sort(b, PairLe)) <==> multiset(a) == multiset(b)
  {
    PairLeIsTotalOrder();
    SortMembers(a, PairLe);
    SortMembers(b, PairLe);
    if multiset(a) == multiset(b) {
      SortCanonical(a, b, PairLe);
    } else if TextOf(Sort(a, PairLe)) == TextOf(Sort(b, PairLe)) {
      TextDecodes(Sort(a, PairLe), Sort(b, PairLe));
    }
  }

  lemma CountStep(front: seq<(string, string)>, tail: seq<(string, string)>, init: seq<string>, last: string,
                  id: string, key: string, has: bool)
    requires multiset(front)[(id, key)] == if has then multiset(init)[id] else 0
    requires multiset(tail)[(id, key)] == if id == last && has then 1 else 0
    ensures multiset(front + tail)[(id, key)] == if has then multiset(init + [last])[id] else 0
  {
  }

  lemma LastApart<T>(s: seq<T>)
    requires s != []
    ensures s == s[..|s| - 1] + [s[|s| - 1]]
  {
  }

  /** A pair is listed as often as its repository was asked for. */
  lemma {:induction false} PairsByCount(ids: seq<string>, keysOf: string -> seq<string>, id: string, key: string)
    requires Distinct(keysOf(id))
    ensures multiset(PairsBy(ids, keysOf))[(id, key)] == if key in keysOf(id) then multiset(ids)[id] else 0
  {
    if ids != [] {
      var init, last := ids[..|ids| - 1], ids[|ids| - 1];
      LastApart(ids);
      PairsByCount(init, keysOf, id, key);
      TagCount(last, keysOf(last), id, key);
      CountStep(PairsBy(init, keysOf), Tag(last, keysOf(last)), init, last, id, key, key in keysOf(id));
    }
  }

  lemma TagCount(tag: string, keys: seq<string>, id: string, key: string)
    requires id == tag ==> Distinct(keys)
    ensures multiset(Tag(tag, keys))[(id, key)] == if id == tag && key in keys then 1 else 0
  {
    var pairs := Tag(tag, keys);
    TagMembers(tag, keys, id, key);
    if id == tag {
      DistinctCounts(pairs, (id, key));
    }
  }

  lemma PairsCount(ids: seq<string>, query: Query, id: string, key: string)
    ensures multiset(Pairs(ids, query))[(id, key)] == if key in RepositoryKeys(query, id) then multiset(ids)[id] else 0
  {
    KeyListFacts(RowsOf(LinesOf(query, id)));
    PairsByCount(ids, i => RepositoryKeys(query, i), id, key);
  }

  /** Permuting the IDs, and permuting or repeating rows, leaves the package input alone. */
  lemma PackageInputIgnoresOrder(c: Catalog, ids: seq<string>, mapping: Mapping, query: Query,
                                 d: Catalog, ids': seq<string>, mapping': Mapping, query': Query)
    requires Generates(c, ids, mapping, query) && Generates(d, ids', mapping', query')
    requires multiset(ids) == multiset(ids')
    requires forall id :: id in ids ==> SameMembers(LinesOf(query, id), LinesOf(query', id))
    ensures c.packageInput == d.packageInput
  {
    StrLeIsTotalOrder();
    SortCanonical(ids, ids', StrLe);
    SortMembers(ids, StrLe);
    forall id | id in c.repositoryIDs ensures RepositoryKeys(query, id) == RepositoryKeys(query', id) {
      KeysIgnoreOrder(query, query', id);
    }
    SamePairs(c.repositoryIDs, id => RepositoryKeys(query, id), id => RepositoryKeys(query', id));
  }

  lemma KeysIgnoreOrder(query: Query, query': Query, id: string)
    requires SameMembers(LinesOf(query, id), LinesOf(query', id))
    ensures RepositoryKeys(query, id) == RepositoryKeys(query', id)
  {
    StrLeIsTotalOrder();
    KeyListFacts(RowsOf(LinesOf(query, id)));
    KeyListFacts(RowsOf(LinesOf(query', id)));
    forall key ensures key in RepositoryKeys(query, id) <==> key in RepositoryKeys(query', id) {
      RepositoryKeysMeaning(query, id, key);
      RepositoryKeysMeaning(query', id, key);
    }
    SortedSetUnique(RepositoryKeys(query, id), RepositoryKeys(query', id), StrLe);
  }

  lemma {:induction false} SamePairs(ids: seq<string>, f: string -> seq<string>, g: string -> seq<string>)
    requires forall id :: id in ids ==> f(id) == g(id)
    ensures PairsBy(ids, f) == PairsBy(ids, g)
  {
    if ids != [] {
      SamePairs(ids[..|ids| - 1], f, g);
      assert ids[|ids| - 1] in ids;
    }
  }

  lemma PairCountOneMore(ids: seq<string>, ids': seq<string>, query: Query, id: string, i: string, key: string)
    requires multiset(ids') == multiset(ids) + multiset{id}
    ensures multiset(Pairs(ids', query))[(i, key)]
         == multiset(Pairs(ids, query))[(i, key)] + if i == id && HasRow(query, id, key) then 1 else 0
  {
    RepositoryKeysMeaning(query, i, key);
    PairsCount(ids, query, i, key);
    PairsCount(ids', query, i, key);
  }

  lemma PairsOneMore(ids: seq<string>, ids': seq<string>, query: Query, id: string)
    requires multiset(ids') == multiset(ids) + multiset{id}
    ensures multiset(Pairs(ids', query)) == multiset(Pairs(ids, query)) <==> !exists key :: HasRow(query, id, key)
  {
    var a, b := multiset(Pairs(ids, query)), multiset(Pairs(ids', query));
    if key :| HasRow(query, id, key) {
      PairCountOneMore(ids, ids', query, id, id, key);
      assert b[(id, key)] != a[(id, key)];
    } else {
      forall p: (string, string) ensures b[p] == a[p] {
        PairCountOneMore(ids, ids', query, id, p.0, p.1);
        assert p == (p.0, p.1);
      }
    }
  }

  lemma OneMoreSorted(ids: seq<string>, id: string)
    ensures multiset(Sort(ids + [id], StrLe)) == multiset(Sort(ids, StrLe)) + multiset{id}
  {
  }

  /** Repeating an ID is another matter: the package input changes if and only if the repository has a package,
      although every lookup stays the same. */
  lemma RepeatedIdShowsIff(c: Catalog, ids: seq<string>, mapping: Mapping, query: Query, d: Catalog, id: string)
    requires Generates(c, ids, mapping, query) && Generates(d, ids + [id], mapping, query)
    requires id in ids
    requires forall p :: p in Pairs(c.repositoryIDs, query) ==> Clean(p)
    ensures c.packageInput != d.packageInput <==> exists key :: HasRow(query, id, key)
    ensures forall pkg :: Lookup(c.packages, pkg) == Lookup(d.packages, pkg)
  {
    SortMembers(ids, StrLe);
    SortMembers(ids + [id], StrLe);
    SameCleanPairs(c.repositoryIDs, d.repositoryIDs, query, id);
    PackageInputIff(c, ids, mapping, query, d, ids + [id], mapping, query);
    OneMoreSorted(ids, id);
    PairsOneMore(c.repositoryIDs, d.repositoryIDs, query, id);
    forall pkg ensures Lookup(c.packages, pkg) == Lookup(d.packages, pkg) {
      IndexIgnoresOrder(c, ids, mapping, query, d, ids + [id], mapping, query, pkg);
    }
  }

  lemma SameCleanPairs(ids: seq<string>, ids': seq<string>, query: Query, id: string)
    requires id in ids && (forall i :: i in ids' <==> i in ids)
    requires forall p :: p in Pairs(ids, query) ==> Clean(p)
    ensures forall p :: p in Pairs(ids', query) ==> Clean(p)
  {
    forall p | p in Pairs(ids', query) ensures Clean(p) {
      PairsMembers(ids, query, p.0, p.1);
      PairsMembers(ids', query, p.0, p.1);
      assert p == (p.0, p.1);
    }
  }
}
