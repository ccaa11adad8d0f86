/** Generating a catalog, and what its index means: a lookup is the sorted list of exactly the (repository, CPE)
    pairs that the rows and the mapping relate to the package, however the input was ordered or repeated. */
module Generate {
  import opened Text
  import opened Order
  import opened Nevra
  import opened CatalogIndex

  datatype Outcome = Written(catalog: Catalog) | Failed(failure: Failure)

  // ---- Filing repositories ----

  ghost predicate RepositoryFiled(filed: map<string, seq<string>>, ids: seq<string>, mapping: Mapping, id: string) {
    && Sorted(CpesOf(filed, id), StrLe) && Distinct(CpesOf(filed, id))
    && forall c :: c in CpesOf(filed, id) <==> id in ids && c in CpesOf(mapping, id)
  }

  ghost predicate RepositoriesFiled(filed: map<string, seq<string>>, ids: seq<string>, mapping: Mapping) {
    forall id :: RepositoryFiled(filed, ids, mapping, id)
  }

  ghost predicate Addable(mapping: Mapping, unbinds: string -> bool, id: string) {
    id != "" && forall c :: c in CpesOf(mapping, id) ==> unbinds(c)
  }

  ghost predicate AddFault(mapping: Mapping, unbinds: string -> bool, id: string, f: Failure) {
    match f
    case EmptyRepositoryID => id == ""
    case InvalidCpe(c) => id != "" && c in CpesOf(mapping, id) && !unbinds(c)
    case _ => false
  }

  ghost predicate AllAddable(mapping: Mapping, unbinds: string -> bool, ids: seq<string>) {
    forall id :: id in ids ==> Addable(mapping, unbinds, id)
  }

  lemma RepositoriesFiledGrows(before: map<string, seq<string>>, after: map<string, seq<string>>, ids: seq<string>,
                               i: nat, mapping: Mapping)
    requires i < |ids| && RepositoriesFiled(before, ids[..i], mapping)
    requires SameExcept(before, after, ids[i])
    requires Sorted(CpesOf(after, ids[i]), StrLe) && Distinct(CpesOf(after, ids[i]))
    requires forall c :: c in CpesOf(after, ids[i]) <==> c in CpesOf(before, ids[i]) || c in CpesOf(mapping, ids[i])
    ensures RepositoriesFiled(after, ids[..i + 1], mapping)
  {
    var more := ids[..i + 1];
    assert more == ids[..i] + [ids[i]];
    forall id ensures RepositoryFiled(after, more, mapping, id) {
      assert RepositoryFiled(before, ids[..i], mapping, id);
      assert id in more <==> id in ids[..i] || id == ids[i];
      assert id != ids[i] ==> CpesOf(after, id) == CpesOf(before, id);
    }
  }

  method AddRepositories(w: JsonWriter, ids: seq<string>, mapping: Mapping) returns (failure: Option<Failure>)
    requires w.repositories == map[]
    modifies w`repositories
    ensures failure.None? <==> AllAddable(mapping, w.unbinds, ids)
    ensures failure.Some? ==> exists i :: 0 <= i < |ids| && AddFault(mapping, w.unbinds, ids[i], failure.value)
    ensures failure.None? ==> RepositoriesFiled(w.repositories, ids, mapping)
  {
    var i := 0;
    while i < |ids|
      invariant 0 <= i <= |ids| && forall j :: 0 <= j < i ==> Addable(mapping, w.unbinds, ids[j])
      invariant RepositoriesFiled(w.repositories, ids[..i], mapping)
    {
      ghost var before := w.repositories;
      assert RepositoryFiled(before, ids[..i], mapping, ids[i]);
      failure := w.AddRepository(Repository(ids[i], CpesOf(mapping, ids[i])));
      assert failure.None? <==> Addable(mapping, w.unbinds, ids[i]);
      if failure.Some? {
        assert AddFault(mapping, w.unbinds, ids[i], failure.value);
        return;
      }
      RepositoriesFiledGrows(before, w.repositories, ids, i, mapping);
      i := i + 1;
    }
    assert ids[..i] == ids;
    failure := None;
  }

  // ---- Filing packages ----

  /** The index is the relation between keys and matches that the pairs and the mapping compose to. */
  ghost predicate KeyFiled(packages: map<string, seq<Match>>, pairs: seq<(string, string)>, mapping: Mapping,
                           key: string) {
    && Distinct(MatchesOf(packages, key))
    && forall m :: m in MatchesOf(packages, key) <==>
                     (m.repositoryID, key) in pairs && m.cpe in CpesOf(mapping, m.repositoryID)
  }

  ghost predicate Filed(packages: map<string, seq<Match>>, pairs: seq<(string, string)>, mapping: Mapping) {
    forall key :: KeyFiled(packages, pairs, mapping, key)
  }

  ghost predicate EntryAddable(e: Entry, cpes: seq<string>, unbinds: string -> bool) {
    cpes != [] ==> Acceptable(e) && e.id != "" && forall c :: c in cpes ==> unbinds(c)
  }

  ghost predicate Gained(before: seq<Match>, after: seq<Match>, id: string, cpes: seq<string>) {
    && (Distinct(before) ==> Distinct(after))
    && forall m :: m in after <==> m in before || (m.repositoryID == id && m.cpe in cpes)
  }

  lemma GainedOne(first: seq<Match>, before: seq<Match>, after: seq<Match>, id: string, cpes: seq<string>, i: nat)
    requires i < |cpes| && Gained(first, before, id, cpes[..i])
    requires after == if Match(id, cpes[i]) in before then before else before + [Match(id, cpes[i])]
    ensures Gained(first, after, id, cpes[..i + 1])
  {
    assert cpes[..i + 1] == cpes[..i] + [cpes[i]];
    assert forall c :: c in cpes[..i + 1] <==> c in cpes[..i] || c == cpes[i];
    assert forall m :: m in after <==> m in before || m == Match(id, cpes[i]);
  }

  /** One package of one repository, under each of the repository's CPEs. */
  method AddEntry(w: JsonWriter, e: Entry, cpes: seq<string>) returns (failure: Option<Failure>)
    modifies w`packages
    ensures failure.None? <==> EntryAddable(e, cpes, w.unbinds)
    ensures failure.None? ==>
              && SameExcept(old(w.packages), w.packages, e.row.key)
              && Gained(MatchesOf(old(w.packages), e.row.key), MatchesOf(w.packages, e.row.key), e.id, cpes)
  {
    ghost var first := MatchesOf(w.packages, e.row.key);
    var i := 0;
    while i < |cpes|
      invariant 0 <= i <= |cpes|
      invariant i > 0 ==> Acceptable(e) && e.id != ""
      invariant forall j :: 0 <= j < i ==> w.unbinds(cpes[j])
      invariant SameExcept(old(w.packages), w.packages, e.row.key)
      invariant Gained(first, MatchesOf(w.packages, e.row.key), e.id, cpes[..i])
    {
      ghost var before := MatchesOf(w.packages, e.row.key);
      failure := w.AddPackage(e.row, Match(e.id, cpes[i]));
      if failure.Some? {
        return;
      }
      GainedOne(first, before, MatchesOf(w.packages, e.row.key), e.id, cpes, i);
      i := i + 1;
    }
    assert cpes[..i] == cpes;
    failure := None;
  }

  lemma FiledGrows(before: map<string, seq<Match>>, after: map<string, seq<Match>>, entries: seq<Entry>, i: nat,
                   mapping: Mapping)
    requires i < |entries| && Filed(before, PairsOf(entries[..i]), mapping)
    requires SameExcept(before, after, entries[i].row.key)
    requires Gained(MatchesOf(before, entries[i].row.key), MatchesOf(after, entries[i].row.key), entries[i].id,
                    CpesOf(mapping, entries[i].id))
    ensures Filed(after, PairsOf(entries[..i + 1]), mapping)
  {
    var e := entries[i];
    var pairs, more := PairsOf(entries[..i]), PairsOf(entries[..i + 1]);
    assert more == pairs + [PairOf(e)];
    forall key ensures KeyFiled(after, more, mapping, key) {
      assert KeyFiled(before, pairs, mapping, key);
      assert key != e.row.key ==> MatchesOf(after, key) == MatchesOf(before, key);
      assert forall p :: p in more <==> p in pairs || p == PairOf(e);
    }
  }

  ghost predicate AllEntriesAddable(entries: seq<Entry>, mapping: Mapping, unbinds: string -> bool) {
    forall i :: 0 <= i < |entries| ==> EntryAddable(entries[i], CpesOf(mapping, entries[i].id), unbinds)
  }

  method AddPackages(w: JsonWriter, entries: seq<Entry>, mapping: Mapping) returns (failure: Option<Failure>)
    requires w.packages == map[]
    modifies w`packages
    ensures failure.None? <==> AllEntriesAddable(entries, mapping, w.unbinds)
    ensures failure.None? ==> Filed(w.packages, PairsOf(entries), mapping)
  {
    var i := 0;
    assert Filed(w.packages, PairsOf(entries[..0]), mapping);
    while i < |entries|
      invariant 0 <= i <= |entries| && AllEntriesAddable(entries[..i], mapping, w.unbinds)
      invariant Filed(w.packages, PairsOf(entries[..i]), mapping)
    {
      ghost var before := w.packages;
      failure := AddEntry(w, entries[i], CpesOf(mapping, entries[i].id));
      if failure.Some? {
        return;
      }
      FiledGrows(before, w.packages, entries, i, mapping);
      i := i + 1;
    }
    assert entries[..i] == entries;
    failure := None;
  }

  // ---- Generate ----

  /** The text the package fingerprint is taken of, built value by value. */
  method PackageText(entries: seq<Entry>) returns (s: string)
    ensures s == TextOf(PairsOf(entries))
  {
    s := "";
    var i := 0;
    while i < |entries|
      invariant 0 <= i <= |entries| && s == TextOf(PairsOf(entries)[..i])
    {
      assert PairsOf(entries)[..i + 1][..i] == PairsOf(entries)[..i];
      s := s + entries[i].id + ['\0'] + entries[i].row.key + "\n";
      i := i + 1;
    }
    assert PairsOf(entries)[..i] == PairsOf(entries);
  }

  ghost predicate Generates(c: Catalog, ids: seq<string>, mapping: Mapping, query: Query) {
    && c.repositoryIDs == Sort(ids, StrLe)
    && RepositoriesFiled(c.repositories, c.repositoryIDs, mapping)
    && Filed(c.packages, Sort(Pairs(c.repositoryIDs, query), PairLe), mapping)
    && c.packageInput == TextOf(Sort(Pairs(c.repositoryIDs, query), PairLe))
  }

  ghost predicate Generable(id: string, mapping: Mapping, query: Query, unbinds: string -> bool) {
    id != "" && Mapped(mapping, unbinds, id) && Listed(query, id)
  }

  lemma EntriesAddable(entries: seq<Entry>, ids: seq<string>, mapping: Mapping, unbinds: string -> bool)
    requires FromIds(entries, ids)
    requires AllAddable(mapping, unbinds, ids)
    ensures AllEntriesAddable(entries, mapping, unbinds)
  {
    forall i | 0 <= i < |entries| ensures EntryAddable(entries[i], CpesOf(mapping, entries[i].id), unbinds) {
      assert entries[i] in entries;
      assert Addable(mapping, unbinds, entries[i].id);
    }
  }

  /** What a failure reports: nothing asked for; else the first repository, in sorted order, with an invalid mapping;
      else the first with unreadable rows; else an empty ID. */
  ghost predicate Explains(f: Failure, ids: seq<string>, mapping: Mapping, query: Query, unbinds: string -> bool) {
    var sorted := Sort(ids, StrLe);
    if ids == [] then f == NoRepositories
    else if exists id :: id in ids && !Mapped(mapping, unbinds, id) then
      exists i :: FirstUnmapped(sorted, mapping, unbinds, i, f)
    else if !AllListed(query, sorted) then exists i :: FirstUnlisted(sorted, query, i, f)
    else f == EmptyRepositoryID && "" in ids
  }

  /** Writes a new catalog of sorted IDs and packages. */
  method Write(ids: seq<string>, packages: seq<Entry>, mapping: Mapping, unbinds: string -> bool)
    returns (r: Outcome)
    requires FromIds(packages, ids)
    ensures r.Written? <==> AllAddable(mapping, unbinds, ids)
    ensures r.Written? ==>
              && r.catalog.repositoryIDs == ids && RepositoriesFiled(r.catalog.repositories, ids, mapping)
              && Filed(r.catalog.packages, PairsOf(packages), mapping)
              && r.catalog.packageInput == TextOf(PairsOf(packages))
    ensures r.Failed? ==> exists i :: 0 <= i < |ids| && AddFault(mapping, unbinds, ids[i], r.failure)
  {
    var input := PackageText(packages);
    var w := new JsonWriter(unbinds);
    var failure := AddRepositories(w, ids, mapping);
    if failure.Some? {
      return Failed(failure.value);
    }
    failure := AddPackages(w, packages, mapping);
    EntriesAddable(packages, ids, mapping, unbinds);
    r := match failure
      case Some(f) => Failed(f)
      case None => Written(Catalog(ids, w.repositories, w.packages, input));
  }

  lemma OnlyEmptyIdsFail(ids: seq<string>, mapping: Mapping, unbinds: string -> bool, i: int, f: Failure)
    requires 0 <= i < |ids| && AddFault(mapping, unbinds, ids[i], f)
    requires forall id :: id in ids ==> Mapped(mapping, unbinds, id)
    ensures f == EmptyRepositoryID && "" in ids
  {
    assert Mapped(mapping, unbinds, ids[i]);
  }

  lemma MappedAreAddable(ids: seq<string>, mapping: Mapping, unbinds: string -> bool)
    requires forall id :: id in ids ==> Mapped(mapping, unbinds, id)
    ensures AllAddable(mapping, unbinds, ids) <==> "" !in ids
  {
    forall id | id in ids ensures Addable(mapping, unbinds, id) <==> id != "" {
      assert Mapped(mapping, unbinds, id);
    }
  }

  /** Sorts the IDs, checks the mapping, queries, sorts, and writes. It succeeds exactly when there is a repository
      and every one of them has an ID, valid CPEs and readable rows. */
  method Generate(ids: seq<string>, mapping: Mapping, query: Query, unbinds: string -> bool) returns (r: Outcome)
    ensures r.Written? <==> ids != [] && forall id :: id in ids ==> Generable(id, mapping, query, unbinds)
    ensures r.Written? ==> Generates(r.catalog, ids, mapping, query)
    ensures r.Failed? ==> Explains(r.failure, ids, mapping, query, unbinds)
  {
    if ids == [] {
      return Failed(NoRepositories);
    }
    var sortedIds := Sort(ids, StrLe);
    SortMembers(ids, StrLe);
    var failure := CheckMapping(sortedIds, mapping, unbinds);
    if failure.Some? {
      return Failed(failure.value);
    }
    MappedAreAddable(sortedIds, mapping, unbinds);
    var packages;
    packages, failure := QueryAll(sortedIds, query);
    if failure.Some? {
      return Failed(failure.value);
    }
    SortProjects(packages);
    SortMembers(packages, EntryLe);
    r := Write(sortedIds, Sort(packages, EntryLe), mapping, unbinds);
    if r.Failed? {
      ghost var i :| 0 <= i < |sortedIds| && AddFault(mapping, unbinds, sortedIds[i], r.failure);
      OnlyEmptyIdsFail(sortedIds, mapping, unbinds, i, r.failure);
    }
  }

  // ---- What a lookup means ----

  /** Some row of the repository has the key. */
  ghost predicate HasRow(query: Query, id: string, key: string) {
    exists line :: line in LinesOf(query, id) && RowAt(line).Some? && RowAt(line).value.key == key
  }

  lemma RepositoryKeysMeaning(query: Query, id: string, key: string)
    ensures key in RepositoryKeys(query, id) <==> HasRow(query, id, key)
  {
    var lines := LinesOf(query, id);
    KeyListFacts(RowsOf(lines));
    RowKeysMembers(RowsOf(lines), key);
    if row: Row :| row.key == key && Some(row) in RowsOf(lines) {
      RowsMembers(lines, row);
    }
    if HasRow(query, id, key) {
      var line :| line in lines && RowAt(line).Some? && RowAt(line).value.key == key;
      RowsMembers(lines, RowAt(line).value);
    }
  }

  lemma TagMembers(tag: string, keys: seq<string>, id: string, key: string)
    ensures (id, key) in Tag(tag, keys) <==> id == tag && key in keys
  {
    if id == tag && key in keys {
      var i :| 0 <= i < |keys| && keys[i] == key;
      assert Tag(tag, keys)[i] == (id, key);
    }
  }

  lemma {:induction false} PairsByMembers(ids: seq<string>, keysOf: string -> seq<string>, id: string, key: string)
    ensures (id, key) in PairsBy(ids, keysOf) <==> id in ids && key in keysOf(id)
  {
    if ids != [] {
      var n := |ids| - 1;
      PairsByMembers(ids[..n], keysOf, id, key);
      TagMembers(ids[n], keysOf(ids[n]), id, key);
      assert ids == ids[..n] + [ids[n]];
    }
  }

  lemma PairsMembers(ids: seq<string>, query: Query, id: string, key: string)
    ensures (id, key) in Pairs(ids, query) <==> id in ids && key in RepositoryKeys(query, id)
  {
    PairsByMembers(ids, id => RepositoryKeys(query, id), id, key);
  }

  /** A lookup in a generated catalog is the strictly sorted list of exactly the (repository, CPE) pairs such that
      the repository was asked for, some row of it has the package's key, and the mapping gives it the CPE. */
  lemma LookupIsExact(c: Catalog, ids: seq<string>, mapping: Mapping, query: Query, pkg: Nevra)
    requires Generates(c, ids, mapping, query)
    ensures Sorted(Lookup(c.packages, pkg), MatchLe) && Distinct(Lookup(c.packages, pkg))
    ensures forall m :: m in Lookup(c.packages, pkg) <==>
              && m.repositoryID in ids && HasRow(query, m.repositoryID, pkg.Key())
              && m.cpe in CpesOf(mapping, m.repositoryID)
  {
    var key := pkg.Key();
    var pairs := Pairs(c.repositoryIDs, query);
    var found := MatchesOf(c.packages, key);
    assert KeyFiled(c.packages, Sort(pairs, PairLe), mapping, key);
    MatchLeIsTotalOrder();
    SortSorted(found, MatchLe);
    SortDistinct(found, MatchLe);
    forall m ensures m in Lookup(c.packages, pkg) <==>
                     && m.repositoryID in ids && HasRow(query, m.repositoryID, key)
                     && m.cpe in CpesOf(mapping, m.repositoryID)
    {
      SortMembers(found, MatchLe);
      SortMembers(pairs, PairLe);
      SortMembers(ids, StrLe);
      PairsMembers(c.repositoryIDs, query, m.repositoryID, key);
      RepositoryKeysMeaning(query, m.repositoryID, key);
    }
  }

  ghost predicate SameMembers<T(!new)>(a: seq<T>, b: seq<T>) { forall x :: x in a <==> x in b }

  /** Two catalogs of the same repositories, rows and CPEs answer every lookup alike: the order and the repetition
      of IDs, rows and CPEs do not show. */
  lemma IndexIgnoresOrder(c: Catalog, ids: seq<string>, mapping: Mapping, query: Query,
                          d: Catalog, ids': seq<string>, mapping': Mapping, query': Query, pkg: Nevra)
    requires Generates(c, ids, mapping, query) && Generates(d, ids', mapping', query')
    requires SameMembers(ids, ids')
    requires forall id :: id in ids ==> SameMembers(CpesOf(mapping, id), CpesOf(mapping', id))
    requires forall id :: id in ids ==> SameMembers(LinesOf(query, id), LinesOf(query', id))
    ensures Lookup(c.packages, pkg) == Lookup(d.packages, pkg)
    ensures forall id :: CpesOf(c.repositories, id) == CpesOf(d.repositories, id)
  {
    LookupIsExact(c, ids, mapping, query, pkg);
    LookupIsExact(d, ids', mapping', query', pkg);
    forall id | id in ids ensures HasRow(query, id, pkg.Key()) <==> HasRow(query', id, pkg.Key()) {}
    MatchLeIsTotalOrder();
    SortedSetUnique(Lookup(c.packages, pkg), Lookup(d.packages, pkg), MatchLe);
    SortMembers(ids, StrLe);
    SortMembers(ids', StrLe);
    StrLeIsTotalOrder();
    forall id ensures CpesOf(c.repositories, id) == CpesOf(d.repositories, id) {
      assert RepositoryFiled(c.repositories, c.repositoryIDs, mapping, id);
      assert RepositoryFiled(d.repositories, d.repositoryIDs, mapping', id);
      SortedSetUnique(CpesOf(c.repositories, id), CpesOf(d.repositories, id), StrLe);
    }
  }

  /** For a package whose fields have no bar, the row that is found is the package's own, on a line that is not
      white space only. */
  lemma LookupFindsThePackage(c: Catalog, ids: seq<string>, mapping: Mapping, query: Query, pkg: Nevra, m: Match)
    requires Generates(c, ids, mapping, query) && Without(pkg, '|')
    ensures m in Lookup(c.packages, pkg) <==>
              && m.repositoryID in ids && m.cpe in CpesOf(mapping, m.repositoryID)
              && exists line :: line in LinesOf(query, m.repositoryID) && Inked(line) && ParseRow(line) == Ok(pkg)
  {
    LookupIsExact(c, ids, mapping, query, pkg);
    var lines := LinesOf(query, m.repositoryID);
    if HasRow(query, m.repositoryID, pkg.Key()) {
      var line :| line in lines && RowAt(line).Some? && RowAt(line).value.key == pkg.Key();
      KeyWithoutBarsIdentifies(pkg, RowAt(line).value.pkg);
      BlankIff(line);
      assert Inked(line) && ParseRow(line) == Ok(pkg);
    }
    if line :| line in lines && Inked(line) && ParseRow(line) == Ok(pkg) {
      BlankIff(line);
      assert RowAt(line) == Some(Row(pkg.Key(), pkg));
    }
  }

  lemma InkShows(line: string, pkg: Nevra)
    requires ParseRow(line) == Ok(pkg) && Inked(pkg.name + pkg.version + pkg.release + pkg.arch)
    ensures Inked(line)
  {
    RowMeaning(line, pkg);
    var n :| Without(n, '\t') && Complete(n) && line == RowOf(n) && pkg == n.(epoch := EpochOrZero(n.epoch));
    var s, fields := pkg.name + pkg.version + pkg.release + pkg.arch, n.Fields();
    var i :| 0 <= i < |s| && IsInk(s[i]);
    var k :| k in [0, 2, 3, 4] && s[i] in fields[k];
    JoinShows(fields, "\t", k, s[i]);
    var j :| 0 <= j < |line| && line[j] == s[i];
    assert IsInk(line[j]);
  }

  /** A package without bars and not of white space alone is found if and only if the repository was asked for, some
      line of it parses as the package, and the mapping gives it the CPE. */
  lemma LookupFindsTheLine(c: Catalog, ids: seq<string>, mapping: Mapping, query: Query, pkg: Nevra, m: Match)
    requires Generates(c, ids, mapping, query) && Without(pkg, '|')
    requires Inked(pkg.name + pkg.version + pkg.release + pkg.arch)
    ensures m in Lookup(c.packages, pkg) <==>
              && m.repositoryID in ids && m.cpe in CpesOf(mapping, m.repositoryID)
              && exists line :: line in LinesOf(query, m.repositoryID) && ParseRow(line) == Ok(pkg)
  {
    LookupFindsThePackage(c, ids, mapping, query, pkg, m);
    if line :| line in LinesOf(query, m.repositoryID) && ParseRow(line) == Ok(pkg) {
      InkShows(line, pkg);
    }
  }

  /** Every line that is not white space only is a row. */
  ghost predicate OnlyRows(lines: seq<string>) {
    forall line :: line in lines && Inked(line) ==> ParseRow(line).Ok?
  }

  /** A catalog can be generated for a repository if and only if it has an ID, the mapping gives it CPEs and valid ones
      only, and what is printed for it has no line but rows and white space. */
  lemma GenerableIff(id: string, mapping: Mapping, query: Query, unbinds: string -> bool)
    ensures Generable(id, mapping, query, unbinds) <==>
            && id != "" && id in mapping && mapping[id] != [] && (forall c :: c in mapping[id] ==> unbinds(c))
            && query(id).Some? && OnlyRows(query(id).value)
  {
    if query(id).Some? {
      forall line | line in query(id).value ensures Reads(line) <==> (Inked(line) ==> ParseRow(line).Ok?) {
        BlankIff(line);
      }
    }
  }
}
