/** The catalog pipeline: rows of a repository query, deduplicated and sorted; the writer that files matches under
    package keys; and the lookup that reads them back. The index is a relation between keys and (repository, CPE)
    pairs; nothing else about the input shows in it. */
module CatalogIndex {
  import opened Text
  import opened Order
  import opened Nevra

  datatype Match = Match(repositoryID: string, cpe: string)

  datatype Repository = Repository(id: string, cpes: seq<string>)

  /** The parts of the catalog that lookups and fingerprints depend on. */
  datatype Catalog = Catalog(repositoryIDs: seq<string>, repositories: map<string, seq<string>>,
                             packages: map<string, seq<Match>>, packageInput: string)

  datatype Failure = NoRepositories | NotMapped(id: string) | NoCpes(id: string) | InvalidCpe(cpe: string)
                   | EmptyRepositoryID | QueryFailed(id: string) | BadRow(id: string, error: Error)
                   | BadPackage(error: Error)

  type Mapping = map<string, seq<string>>

  /** What the package manager prints for a repository, line by line; None when it fails. */
  type Query = string -> Option<seq<string>>

  function CpesOf(mapping: Mapping, id: string): seq<string> { if id in mapping then mapping[id] else [] }

  // ---- The rows of one repository ----

  predicate IsSpace(c: char) { '\t' <= c <= '\r' || c == ' ' }

  predicate Blank(line: string) { forall i :: 0 <= i < |line| ==> IsSpace(line[i]) }

  /** A character that is not ASCII white space. */
  predicate IsInk(c: char) { c < '\t' || '\r' < c < ' ' || ' ' < c }

  predicate Inked(line: string) { exists i :: 0 <= i < |line| && IsInk(line[i]) }

  lemma BlankIff(line: string)
    ensures Blank(line) <==> !Inked(line)
  {
    if !Blank(line) {
      var i :| 0 <= i < |line| && !IsSpace(line[i]);
      assert IsInk(line[i]);
    }
  }

  /** A package together with its key. */
  datatype Row = Row(key: string, pkg: Nevra)

  /** The package of a line, if the line holds one. */
  function RowAt(line: string): Option<Row> {
    if Blank(line) then None
    else match ParseRow(line) case Ok(n) => Some(Row(n.Key(), n)) case Err(_) => None
  }

  predicate Reads(line: string) { Blank(line) || ParseRow(line).Ok? }

  predicate Readable(lines: seq<string>) { forall line :: line in lines ==> Reads(line) }

  function RowsOf(lines: seq<string>): seq<Option<Row>> {
    if lines == [] then [] else RowsOf(lines[..|lines| - 1]) + [RowAt(lines[|lines| - 1])]
  }

  /** The keys of some rows, in order and with repetitions. */
  function RowKeys(rows: seq<Option<Row>>): seq<string> {
    if rows == [] then []
    else RowKeys(rows[..|rows| - 1]) + match rows[|rows| - 1] case Some(r) => [r.key] case None => []
  }

  /** The distinct keys of some rows, sorted. */
  function KeyList(rows: seq<Option<Row>>): seq<string> { Sort(Dedup(RowKeys(rows)), StrLe) }

  lemma RowsSnoc(lines: seq<string>, line: string)
    ensures RowsOf(lines + [line]) == RowsOf(lines) + [RowAt(line)]
  {
    assert (lines + [line])[..|lines|] == lines;
  }

  lemma KeysSnoc(rows: seq<Option<Row>>, row: Option<Row>)
    ensures RowKeys(rows + [row]) == RowKeys(rows) + if row.Some? then [row.value.key] else []
  {
    assert (rows + [row])[..|rows|] == rows;
  }

  predicate Genuine(row: Row) { row.key == row.pkg.Key() && Validate(row.pkg).Ok? }

  lemma RowAtGenuine(line: string)
    ensures RowAt(line).Some? ==> Genuine(RowAt(line).value)
  {
  }

  lemma {:induction false} RowsMembers(lines: seq<string>, row: Row)
    ensures Some(row) in RowsOf(lines) <==> exists line :: line in lines && RowAt(line) == Some(row)
    ensures Some(row) in RowsOf(lines) ==> Genuine(row)
  {
    if lines != [] {
      var n := |lines| - 1;
      RowsMembers(lines[..n], row);
      RowAtGenuine(lines[n]);
      assert lines == lines[..n] + [lines[n]];
      assert forall line :: line in lines <==> line in lines[..n] || line == lines[n];
    }
  }

  lemma {:induction false} RowKeysMembers(rows: seq<Option<Row>>, key: string)
    ensures key in RowKeys(rows) <==> exists row: Row :: row.key == key && Some(row) in rows
  {
    if rows != [] {
      var n := |rows| - 1;
      RowKeysMembers(rows[..n], key);
      assert rows == rows[..n] + [rows[n]];
      assert forall row :: row in rows <==> row in rows[..n] || row == rows[n];
    }
  }

  lemma KeyListFacts(rows: seq<Option<Row>>)
    ensures Sorted(KeyList(rows), StrLe) && Distinct(KeyList(rows))
    ensures forall key :: key in KeyList(rows) <==> key in RowKeys(rows)
  {
    StrLeIsTotalOrder();
    SortSorted(Dedup(RowKeys(rows)), StrLe);
    SortDistinct(Dedup(RowKeys(rows)), StrLe);
    SortMembers(Dedup(RowKeys(rows)), StrLe);
  }

  function KeysOf(packages: seq<Row>): (keys: seq<string>)
    ensures |keys| == |packages| && forall i :: 0 <= i < |keys| ==> keys[i] == packages[i].key
  {
    if packages == [] then [] else [packages[0].key] + KeysOf(packages[1..])
  }

  predicate KeyLe(a: Row, b: Row) { StrLe(a.key, b.key) }

  lemma KeyLePreorder()
    ensures TotalPreorder(KeyLe)
  {
    forall a: Row, b: Row ensures KeyLe(a, b) || KeyLe(b, a) { StrTotal(a.key, b.key); }
    forall a: Row, b: Row, c: Row | KeyLe(a, b) && KeyLe(b, c) ensures KeyLe(a, c) {
      StrTransitive(a.key, b.key, c.key);
    }
  }

  /** The package kept for a key is that of the last row with the key. */
  ghost predicate Kept(rows: seq<Option<Row>>, row: Row) {
    exists i :: 0 <= i < |rows| && rows[i] == Some(row) && NotAfter(rows, i, row.key)
  }

  ghost predicate NotAfter(rows: seq<Option<Row>>, i: int, key: string) {
    forall j :: 0 <= i < j < |rows| && rows[j].Some? ==> rows[j].value.key != key
  }

  lemma KeptGrows(rows: seq<Option<Row>>, last: Option<Row>, row: Row)
    requires Kept(rows, row) && (last.Some? ==> last.value.key != row.key)
    ensures Kept(rows + [last], row)
  {
    var i :| 0 <= i < |rows| && rows[i] == Some(row) && NotAfter(rows, i, row.key);
    assert (rows + [last])[i] == Some(row) && NotAfter(rows + [last], i, row.key);
  }

  ghost predicate Unique(unique: map<string, Nevra>, rows: seq<Option<Row>>) {
    && (forall key :: key in unique <==> key in RowKeys(rows))
    && forall key :: key in unique ==> Kept(rows, Row(key, unique[key]))
  }

  lemma UniqueGrows(unique: map<string, Nevra>, rows: seq<Option<Row>>, last: Option<Row>)
    requires Unique(unique, rows)
    ensures Unique(if last.Some? then unique[last.value.key := last.value.pkg] else unique, rows + [last])
  {
    var all := rows + [last];
    var after := if last.Some? then unique[last.value.key := last.value.pkg] else unique;
    KeysSnoc(rows, last);
    forall key | key in after ensures Kept(all, Row(key, after[key])) {
      if last.Some? && last.value.key == key {
        assert all[|rows|] == Some(Row(key, after[key])) && NotAfter(all, |rows|, key);
      } else {
        KeptGrows(rows, last, Row(key, unique[key]));
      }
    }
  }

  /** The row of one line, or the error that ends the query. */
  method ReadLine(line: string) returns (r: Result<Option<Row>>)
    ensures r.Ok? <==> Reads(line)
    ensures r.Ok? ==> r.value == RowAt(line)
    ensures r.Err? ==> ParseRow(line) == Err(r.error)
  {
    if Blank(line) {
      return Ok(None);
    }
    var pkg := ParseRow(line);
    if pkg.Err? {
      return Err(pkg.error);
    }
    r := Ok(Some(Row(pkg.value.Key(), pkg.value)));
  }

  predicate FirstBad(lines: seq<string>, i: int, e: Error) {
    0 <= i < |lines| && Readable(lines[..i]) && !Reads(lines[i]) && ParseRow(lines[i]) == Err(e)
  }

  ghost predicate ReadUpTo(unique: map<string, Nevra>, lines: seq<string>, i: nat)
    requires i <= |lines|
  {
    Readable(lines[..i]) && Unique(unique, RowsOf(lines[..i]))
  }

  /** One line of the scan. */
  method ScanLine(lines: seq<string>, i: nat, unique: map<string, Nevra>)
    returns (after: map<string, Nevra>, error: Option<Error>)
    requires i < |lines| && ReadUpTo(unique, lines, i)
    ensures error.None? ==> ReadUpTo(after, lines, i + 1)
    ensures error.Some? ==> FirstBad(lines, i, error.value)
  {
    UniqueGrows(unique, RowsOf(lines[..i]), RowAt(lines[i]));
    RowsSnoc(lines[..i], lines[i]);
    assert lines[..i] + [lines[i]] == lines[..i + 1];
    var row := ReadLine(lines[i]);
    if row.Err? {
      return unique, Some(row.error);
    }
    error := None;
    after := unique;
    if row.value.Some? {
      after := unique[row.value.value.key := row.value.value.pkg];
    }
  }

  lemma FirstBadEnds(lines: seq<string>, i: int, e: Error)
    requires FirstBad(lines, i, e)
    ensures !Readable(lines)
  {
    assert lines[i] in lines;
  }

  /** Queries one repository: fails at the first row that does not parse; otherwise one package per key, sorted by
      key. */
  method QueryDnf(lines: seq<string>) returns (r: Result<seq<Row>>)
    ensures r.Ok? <==> Readable(lines)
    ensures r.Err? ==> exists i :: FirstBad(lines, i, r.error)
    ensures r.Ok? ==> KeysOf(r.value) == KeyList(RowsOf(lines))
    ensures r.Ok? ==> forall row :: row in r.value ==> Kept(RowsOf(lines), row)
  {
    var unique: map<string, Nevra> := map[];
    var i := 0;
    while i < |lines|
      invariant 0 <= i <= |lines| && ReadUpTo(unique, lines, i)
    {
      var after, error := ScanLine(lines, i, unique);
      if error.Some? {
        FirstBadEnds(lines, i, error.value);
        return Err(error.value);
      }
      unique := after;
      i := i + 1;
    }
    assert lines[..i] == lines;
    var packages := SortedValues(unique, RowsOf(lines));
    r := Ok(packages);
  }

  /** Lists the map and sorts the packages by key. */
  method SortedValues(unique: map<string, Nevra>, ghost rows: seq<Option<Row>>) returns (r: seq<Row>)
    requires Unique(unique, rows)
    ensures KeysOf(r) == KeyList(rows)
    ensures forall row :: row in r ==> Kept(rows, row)
  {
    var packages := ValuesByKey(unique);
    KeyLePreorder();
    SortSorted(packages, KeyLe);
    SortMembers(packages, KeyLe);
    SortedKeys(packages, Sort(packages, KeyLe), unique, rows);
    r := Sort(packages, KeyLe);
  }

  /** The values of the map, in the order its iteration happens to take. */
  method ValuesByKey(unique: map<string, Nevra>) returns (packages: seq<Row>)
    ensures forall row :: row in packages <==> row.key in unique && unique[row.key] == row.pkg
    ensures Distinct(packages)
  {
    packages := [];
    var left := unique.Keys;
    while left != {}
      invariant left <= unique.Keys
      invariant forall row :: row in packages <==> row.key in unique && row.key !in left && unique[row.key] == row.pkg
      invariant Distinct(packages)
      decreases |left|
    {
      var key :| key in left;
      assert forall k :: 0 <= k < |packages| ==> packages[k] in packages;
      packages := packages + [Row(key, unique[key])];
      left := left - {key};
    }
  }

  lemma SortedKeys(packages: seq<Row>, sorted: seq<Row>, unique: map<string, Nevra>, rows: seq<Option<Row>>)
    requires Distinct(packages) && sorted == Sort(packages, KeyLe) && Sorted(sorted, KeyLe)
    requires forall key :: key in unique <==> key in RowKeys(rows)
    requires forall row :: row in packages <==> row.key in unique && unique[row.key] == row.pkg
    ensures KeysOf(sorted) == KeyList(rows)
    ensures forall row :: row in sorted ==> row.key in unique && unique[row.key] == row.pkg
  {
    StrLeIsTotalOrder();
    KeyListFacts(rows);
    SortMembers(packages, KeyLe);
    SortDistinct(packages, KeyLe);
    var keys := KeysOf(sorted);
    assert Distinct(keys) by {
      forall i, j | 0 <= i < j < |keys| ensures keys[i] != keys[j] {
        assert sorted[i] in sorted && sorted[j] in sorted && sorted[i] != sorted[j];
      }
    }
    assert Sorted(keys, StrLe);
    forall key ensures key in keys <==> key in KeyList(rows) {
      if key in keys {
        var i :| 0 <= i < |keys| && keys[i] == key;
        assert sorted[i] in sorted;
      }
      if key in unique {
        assert Row(key, unique[key]) in sorted;
        var i :| 0 <= i < |sorted| && sorted[i] == Row(key, unique[key]);
        assert keys[i] == key;
      }
    }
    SortedSetUnique(keys, KeyList(rows), StrLe);
  }

  // ---- The writer ----

  function MatchesOf(packages: map<string, seq<Match>>, key: string): seq<Match> {
    if key in packages then packages[key] else []
  }

  ghost predicate SameExcept<V>(before: map<string, V>, after: map<string, V>, key: string) {
    forall k :: k != key ==> (k in after <==> k in before) && (k in before ==> after[k] == before[k])
  }

  class JsonWriter {
    /** Which strings cpe.Unbind accepts. */
    const unbinds: string -> bool
    var repositories: map<string, seq<string>>
    var packages: map<string, seq<Match>>

    constructor (unbinds: string -> bool)
      ensures this.unbinds == unbinds && repositories == map[] && packages == map[]
    {
      this.unbinds := unbinds;
      repositories, packages := map[], map[];
    }

    /** Fails on an empty ID, or on the first CPE that does not parse, keeping those before it. On success the
        repository's list is sorted and has gained exactly the new CPEs, without repetitions. */
    method AddRepository(repository: Repository) returns (failure: Option<Failure>)
      modifies `repositories
      ensures failure.None? <==> repository.id != "" && forall c :: c in repository.cpes ==> unbinds(c)
      ensures SameExcept(old(repositories), repositories, repository.id)
      ensures var before, after := CpesOf(old(repositories), repository.id), CpesOf(repositories, repository.id);
              && (Distinct(before) ==> Distinct(after))
              && (failure.None? ==> Sorted(after, StrLe))
              && (failure.None? ==> forall c :: c in after <==> c in before || c in repository.cpes)
              && (failure.Some? ==>
                    if repository.id == "" then failure == Some(EmptyRepositoryID) && after == before
                    else exists i :: 0 <= i < |repository.cpes| && !unbinds(repository.cpes[i])
                                     && failure == Some(InvalidCpe(repository.cpes[i]))
                                     && (forall j :: 0 <= j < i ==> unbinds(repository.cpes[j]))
                                     && forall c :: c in after <==> c in before || c in repository.cpes[..i])
    {
      if repository.id == "" {
        return Some(EmptyRepositoryID);
      }
      ghost var before := CpesOf(repositories, repository.id);
      var i := 0;
      while i < |repository.cpes|
        invariant 0 <= i <= |repository.cpes|
        invariant forall j :: 0 <= j < i ==> unbinds(repository.cpes[j])
        invariant SameExcept(old(repositories), repositories, repository.id)
        invariant Distinct(before) ==> Distinct(CpesOf(repositories, repository.id))
        invariant forall c :: c in CpesOf(repositories, repository.id) <==> c in before || c in repository.cpes[..i]
      {
        var value := repository.cpes[i];
        if !unbinds(value) {
          return Some(InvalidCpe(value));
        }
        var list := CpesOf(repositories, repository.id);
        assert repository.cpes[..i + 1] == repository.cpes[..i] + [value];
        if value !in list {
          repositories := repositories[repository.id := list + [value]];
        }
        i := i + 1;
      }
      assert repository.cpes[..i] == repository.cpes;
      StrLeIsTotalOrder();
      if repository.id in repositories {
        var list := repositories[repository.id];
        SortSorted(list, StrLe);
        SortMembers(list, StrLe);
        assert Distinct(list) ==> Distinct(Sort(list, StrLe)) by { if Distinct(list) { SortDistinct(list, StrLe); } }
        repositories := repositories[repository.id := Sort(list, StrLe)];
      }
      failure := None;
    }

    /** Files one match under a package's key unless it is there already; anything invalid changes nothing. */
    method AddPackage(row: Row, m: Match) returns (failure: Option<Failure>)
      modifies `packages
      ensures failure.None? <==> Validate(row.pkg).Ok? && m.repositoryID != "" && unbinds(m.cpe)
      ensures failure.Some? ==> packages == old(packages)
      ensures failure.None? ==>
                && SameExcept(old(packages), packages, row.key)
                && var before, after := MatchesOf(old(packages), row.key), MatchesOf(packages, row.key);
                   after == if m in before then before else before + [m]
    {
      var valid := Validate(row.pkg);
      if valid.Err? {
        return Some(BadPackage(valid.error));
      }
      if m.repositoryID == "" {
        return Some(EmptyRepositoryID);
      }
      if !unbinds(m.cpe) {
        return Some(InvalidCpe(m.cpe));
      }
      var list := MatchesOf(packages, row.key);
      if m !in list {
        packages := packages[row.key := list + [m]];
      }
      failure := None;
    }
  }

  // ---- Lookup ----

  function MatchPair(m: Match): (string, string) { (m.repositoryID, m.cpe) }

  predicate MatchLe(a: Match, b: Match) { PairLe(MatchPair(a), MatchPair(b)) }

  lemma MatchLeIsTotalOrder()
    ensures TotalOrder(MatchLe)
  {
    forall a: Match, b: Match ensures MatchLe(a, b) || MatchLe(b, a) { PairTotal(MatchPair(a), MatchPair(b)); }
    forall a: Match, b: Match | MatchLe(a, b) && MatchLe(b, a) ensures a == b {
      PairTotal(MatchPair(a), MatchPair(b));
    }
    forall a: Match, b: Match, c: Match | MatchLe(a, b) && MatchLe(b, c) ensures MatchLe(a, c) {
      PairTransitive(MatchPair(a), MatchPair(b), MatchPair(c));
    }
  }

  function Lookup(packages: map<string, seq<Match>>, pkg: Nevra): seq<Match> {
    Sort(MatchesOf(packages, pkg.Key()), MatchLe)
  }

  /** Lookups are listed by repository and, within a repository, by CPE. */
  lemma LookupInOrder(packages: map<string, seq<Match>>, pkg: Nevra, i: nat, j: nat)
    requires i < j < |Lookup(packages, pkg)|
    ensures var a, b := Lookup(packages, pkg)[i], Lookup(packages, pkg)[j];
            && StrLe(a.repositoryID, b.repositoryID)
            && (a.repositoryID == b.repositoryID ==> StrLe(a.cpe, b.cpe))
  {
    MatchLeIsTotalOrder();
    SortSorted(MatchesOf(packages, pkg.Key()), MatchLe);
    var a, b := Lookup(packages, pkg)[i], Lookup(packages, pkg)[j];
    assert MatchLe(a, b);
    StrTotal(a.repositoryID, a.repositoryID);
  }

  // ---- Generate ----

  /** One package of one repository. */
  datatype Entry = Entry(id: string, row: Row)

  function LinesOf(query: Query, id: string): seq<string> { if query(id).Some? then query(id).value else [] }

  /** The sorted distinct keys of a repository. */
  function RepositoryKeys(query: Query, id: string): seq<string> { KeyList(RowsOf(LinesOf(query, id))) }

  function Tag(id: string, keys: seq<string>): (pairs: seq<(string, string)>)
    ensures |pairs| == |keys| && forall i :: 0 <= i < |keys| ==> pairs[i] == (id, keys[i])
  {
    if keys == [] then [] else [(id, keys[0])] + Tag(id, keys[1..])
  }

  function PairsBy(ids: seq<string>, keysOf: string -> seq<string>): seq<(string, string)> {
    if ids == [] then []
    else
      var id := ids[|ids| - 1];
      PairsBy(ids[..|ids| - 1], keysOf) + Tag(id, keysOf(id))
  }

  /** All (repository, key) pairs, repository by repository. */
  function Pairs(ids: seq<string>, query: Query): seq<(string, string)> {
    PairsBy(ids, id => RepositoryKeys(query, id))
  }

  function PairOf(e: Entry): (string, string) { (e.id, e.row.key) }

  function PairsOf(entries: seq<Entry>): (pairs: seq<(string, string)>)
    ensures |pairs| == |entries| && forall i :: 0 <= i < |entries| ==> pairs[i] == PairOf(entries[i])
  {
    if entries == [] then [] else [PairOf(entries[0])] + PairsOf(entries[1..])
  }

  predicate EntryLe(a: Entry, b: Entry) { PairLe(PairOf(a), PairOf(b)) }

  lemma {:induction false} InsertProjects(x: Entry, s: seq<Entry>)
    ensures PairsOf(Insert(x, s, EntryLe)) == Insert(PairOf(x), PairsOf(s), PairLe)
  {
    if s != [] {
      assert PairsOf(s)[1..] == PairsOf(s[1..]);
      InsertProjects(x, s[1..]);
    }
  }

  /** Sorting the entries sorts their pairs. */
  lemma {:induction false} SortProjects(s: seq<Entry>)
    ensures PairsOf(Sort(s, EntryLe)) == Sort(PairsOf(s), PairLe)
  {
    if s != [] {
      assert PairsOf(s)[1..] == PairsOf(s[1..]);
      SortProjects(s[1..]);
      InsertProjects(s[0], Sort(s[1..], EntryLe));
    }
  }

  /** What the fingerprint of the packages is taken of. */
  function TextOf(pairs: seq<(string, string)>): string {
    if pairs == [] then ""
    else TextOf(pairs[..|pairs| - 1]) + pairs[|pairs| - 1].0 + ['\0'] + pairs[|pairs| - 1].1 + "\n"
  }

  ghost predicate Mapped(mapping: Mapping, unbinds: string -> bool, id: string) {
    id in mapping && mapping[id] != [] && forall c :: c in mapping[id] ==> unbinds(c)
  }

  ghost predicate Listed(query: Query, id: string) { query(id).Some? && Readable(query(id).value) }

  /** The reason names something that is wrong with the mapping of the repository. */
  ghost predicate MappingFault(mapping: Mapping, unbinds: string -> bool, id: string, f: Failure) {
    match f
    case NotMapped(x) => x == id && id !in mapping
    case NoCpes(x) => x == id && id in mapping && mapping[id] == []
    case InvalidCpe(c) => id in mapping && c in mapping[id] && !unbinds(c)
    case _ => false
  }

  /** The first repository whose mapping is not valid, and why. */
  ghost predicate FirstUnmapped(ids: seq<string>, mapping: Mapping, unbinds: string -> bool, i: int, f: Failure) {
    && 0 <= i < |ids| && MappingFault(mapping, unbinds, ids[i], f)
    && forall j :: 0 <= j < i ==> Mapped(mapping, unbinds, ids[j])
  }

  method CheckMapping(ids: seq<string>, mapping: Mapping, unbinds: string -> bool) returns (failure: Option<Failure>)
    ensures failure.None? <==> forall id :: id in ids ==> Mapped(mapping, unbinds, id)
    ensures failure.Some? ==> exists i :: FirstUnmapped(ids, mapping, unbinds, i, failure.value)
  {
    var i := 0;
    while i < |ids|
      invariant 0 <= i <= |ids| && forall j :: 0 <= j < i ==> Mapped(mapping, unbinds, ids[j])
    {
      var id := ids[i];
      if id !in mapping {
        assert FirstUnmapped(ids, mapping, unbinds, i, NotMapped(id)) && !Mapped(mapping, unbinds, id);
        return Some(NotMapped(id));
      }
      if mapping[id] == [] {
        assert FirstUnmapped(ids, mapping, unbinds, i, NoCpes(id)) && !Mapped(mapping, unbinds, id);
        return Some(NoCpes(id));
      }
      var k := 0;
      while k < |mapping[id]|
        invariant 0 <= k <= |mapping[id]| && forall j :: 0 <= j < k ==> unbinds(mapping[id][j])
      {
        if !unbinds(mapping[id][k]) {
          assert FirstUnmapped(ids, mapping, unbinds, i, InvalidCpe(mapping[id][k])) && !Mapped(mapping, unbinds, id);
          return Some(InvalidCpe(mapping[id][k]));
        }
        k := k + 1;
      }
      i := i + 1;
    }
    failure := None;
  }

  lemma KeptGenuine(lines: seq<string>, row: Row)
    requires Kept(RowsOf(lines), row)
    ensures Validate(row.pkg).Ok?
  {
    RowsMembers(lines, row);
  }

  predicate Acceptable(e: Entry) { Validate(e.row.pkg).Ok? }

  ghost predicate FromIds(entries: seq<Entry>, ids: seq<string>) {
    forall e :: e in entries ==> e.id in ids && Acceptable(e)
  }

  lemma FromIdsConcat(a: seq<Entry>, b: seq<Entry>, ids: seq<string>, id: string)
    requires FromIds(a, ids) && FromIds(b, [id]) && id in ids
    ensures FromIds(a + b, ids)
  {
  }

  method TagRows(id: string, rows: seq<Row>, ghost lines: seq<string>) returns (more: seq<Entry>)
    requires forall row :: row in rows ==> Kept(RowsOf(lines), row)
    ensures PairsOf(more) == Tag(id, KeysOf(rows))
    ensures forall e :: e in more ==> e.id == id && Acceptable(e)
  {
    more := [];
    while |more| < |rows|
      invariant |more| <= |rows| && forall i :: 0 <= i < |more| ==> more[i] == Entry(id, rows[i])
      invariant forall e :: e in more ==> e.id == id && Acceptable(e)
    {
      KeptGenuine(lines, rows[|more|]);
      more := more + [Entry(id, rows[|more|])];
    }
  }

  /** The reason a repository's rows cannot be had. */
  ghost predicate QueryFault(query: Query, id: string, f: Failure) {
    match f
    case QueryFailed(x) => x == id && query(id).None?
    case BadRow(x, error) => x == id && query(id).Some? && exists i :: FirstBad(query(id).value, i, error)
    case _ => false
  }

  /** The packages of one repository. */
  method QueryOne(id: string, query: Query) returns (packages: seq<Entry>, failure: Option<Failure>)
    ensures failure.None? <==> Listed(query, id)
    ensures failure.Some? ==> QueryFault(query, id, failure.value)
    ensures failure.None? ==> PairsOf(packages) == Tag(id, RepositoryKeys(query, id))
    ensures failure.None? ==> FromIds(packages, [id])
  {
    packages := [];
    var lines := query(id);
    if lines.None? {
      return packages, Some(QueryFailed(id));
    }
    var rows := QueryDnf(lines.value);
    if rows.Err? {
      return packages, Some(BadRow(id, rows.error));
    }
    packages := TagRows(id, rows.value, lines.value);
    failure := None;
  }

  lemma PairsSnoc(ids: seq<string>, i: nat, query: Query)
    requires i < |ids|
    ensures Pairs(ids[..i + 1], query) == Pairs(ids[..i], query) + Tag(ids[i], RepositoryKeys(query, ids[i]))
  {
    assert ids[..i + 1][..i] == ids[..i];
  }

  lemma PairsConcat(a: seq<Entry>, b: seq<Entry>)
    ensures PairsOf(a + b) == PairsOf(a) + PairsOf(b)
  {
  }

  ghost predicate AllListed(query: Query, ids: seq<string>) { forall id :: id in ids ==> Listed(query, id) }

  lemma AllListedSnoc(query: Query, ids: seq<string>, i: nat)
    requires i < |ids| && AllListed(query, ids[..i])
    ensures AllListed(query, ids[..i + 1]) <==> Listed(query, ids[i])
    ensures AllListed(query, ids) ==> Listed(query, ids[i])
  {
    var more := ids[..i + 1];
    assert more == ids[..i] + [ids[i]];
    assert ids[i] in more && ids[i] in ids;
  }

  ghost predicate QueriedUpTo(packages: seq<Entry>, ids: seq<string>, i: nat, query: Query)
    requires i <= |ids|
  {
    && AllListed(query, ids[..i])
    && PairsOf(packages) == Pairs(ids[..i], query)
    && FromIds(packages, ids)
  }

  /** The first repository whose rows cannot be had, and why. */
  ghost predicate FirstUnlisted(ids: seq<string>, query: Query, i: int, f: Failure) {
    0 <= i < |ids| && AllListed(query, ids[..i]) && QueryFault(query, ids[i], f)
  }

  lemma QueriedOneMore(packages: seq<Entry>, more: seq<Entry>, ids: seq<string>, i: nat, query: Query)
    requires i < |ids| && QueriedUpTo(packages, ids, i, query) && Listed(query, ids[i])
    requires PairsOf(more) == Tag(ids[i], RepositoryKeys(query, ids[i])) && FromIds(more, [ids[i]])
    ensures QueriedUpTo(packages + more, ids, i + 1, query)
  {
    AllListedSnoc(query, ids, i);
    PairsSnoc(ids, i, query);
    PairsConcat(packages, more);
    FromIdsConcat(packages, more, ids, ids[i]);
  }

  /** Queries every repository in turn. */
  method QueryAll(ids: seq<string>, query: Query) returns (packages: seq<Entry>, failure: Option<Failure>)
    ensures failure.None? <==> AllListed(query, ids)
    ensures failure.Some? ==> exists i :: FirstUnlisted(ids, query, i, failure.value)
    ensures failure.None? ==> PairsOf(packages) == Pairs(ids, query)
    ensures failure.None? ==> FromIds(packages, ids)
  {
    packages := [];
    var i := 0;
    while i < |ids|
      invariant 0 <= i <= |ids| && QueriedUpTo(packages, ids, i, query)
    {
      var more;
      more, failure := QueryOne(ids[i], query);
      if failure.Some? {
        AllListedSnoc(query, ids, i);
        assert FirstUnlisted(ids, query, i, failure.value);
        return;
      }
      QueriedOneMore(packages, more, ids, i, query);
      packages := packages + more;
      i := i + 1;
    }
    assert ids[..i] == ids;
    failure := None;
  }
}
