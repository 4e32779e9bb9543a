/** The latest version: the scan that picks it, the listing that should start with it, and exactly when
    neither depends on the order in which the rows are read. */
module MarketLatest {
  import opened Text
  import opened MarketSemver

  /** The version the scan of rows settles on. */
  function Latest(rows: seq<string>, acc: string): string {
    if rows == [] then acc
    else Latest(rows[1..], if acc == "" || SemverLess(acc, rows[0]) then rows[0] else acc)
  }

  /** `rows` lists a set of versions, in any order. */
  predicate Enumerates(rows: seq<string>, versions: set<string>) {
    (forall v <- rows :: v in versions) && (forall v <- versions :: v in rows) &&
    forall i, j :: 0 <= i < j < |rows| ==> rows[i] != rows[j]
  }

  /** Every other version is smaller. */
  predicate IsMaximum(m: string, versions: set<string>) {
    m in versions && forall v <- versions :: v != m ==> SemverLess(v, m)
  }

  predicate HasMaximum(versions: set<string>) { exists m <- versions :: IsMaximum(m, versions) }

  /** Every other version is smaller, where the empty version, which the scan takes for none, does not
      matter. */
  predicate IsLatest(m: string, versions: set<string>) {
    m in versions && forall v <- versions :: v != m && v != "" ==> SemverLess(v, m)
  }

  predicate HasLatest(versions: set<string>) { exists m <- versions :: IsLatest(m, versions) }

  // ----- the scan -----

  lemma {:induction false} LatestMember(rows: seq<string>, acc: string)
    ensures Latest(rows, acc) == acc || Latest(rows, acc) in rows
    ensures acc == "" && rows != [] ==> Latest(rows, acc) in rows
  {
    if rows != [] {
      LatestMember(rows[1..], if acc == "" || SemverLess(acc, rows[0]) then rows[0] else acc);
    }
  }

  lemma {:induction false} NoPartsLeast(pa: seq<string>)
    ensures !PartsLess(pa, []) && !PartsLess(pa, [""])
    decreases pa
  {
    EmptyIsNoNumber();
    hide ParseInt;
    if pa != [] { NoPartsLeast(Rest(pa)); }
  }

  lemma EmptyIsLeast(v: string)
    ensures !SemverLess(v, "")
  {
    NoPartsLeast(Split(v, '.'));
  }

  lemma {:induction false} ScanStays(rows: seq<string>, m: string)
    requires m != "" && forall v <- rows :: v == m || v == "" || SemverLess(v, m)
    ensures Latest(rows, m) == m
  {
    if rows != [] {
      var v := rows[0];
      assert v in rows && forall w <- rows[1..] :: w in rows;
      SemverAsymmetric(m, v);
      EmptyIsLeast(m);
      ScanStays(rows[1..], m);
    }
  }

  lemma {:induction false} ScanReaches(rows: seq<string>, acc: string, m: string)
    requires m in rows && forall v <- rows + [acc] :: v == m || v == "" || SemverLess(v, m)
    ensures Latest(rows, acc) == m
  {
    var next := if acc == "" || SemverLess(acc, rows[0]) then rows[0] else acc;
    assert acc in rows + [acc] && forall v <- rows :: v in rows + [acc];
    assert rows == [rows[0]] + rows[1..];
    assert forall v <- rows[1..] + [next] :: v in rows + [acc];
    if m == "" {
      forall v | v in rows + [acc] ensures v == "" { EmptyIsLeast(v); }
      LatestMember(rows, acc);
    } else if next == m {
      ScanStays(rows[1..], m);
    } else {
      SemverAsymmetric(m, acc);
      ScanReaches(rows[1..], next, m);
    }
  }

  /** The scan finds the version that exceeds all others, in whatever order it reads the rows. */
  lemma ScanFindsLatest(rows: seq<string>, versions: set<string>)
    requires Enumerates(rows, versions) && HasLatest(versions)
    ensures IsLatest(Latest(rows, ""), versions)
  {
    var m :| m in versions && IsLatest(m, versions);
    ScanReaches(rows, "", m);
  }

  lemma LatestOfFewer(versions: set<string>, v: string, m: string)
    requires IsLatest(m, versions + {v}) && m in versions
    ensures IsLatest(m, versions) && HasLatest(versions)
  {
    hide SemverLess;
  }

  lemma LatestUnique(a: string, b: string, versions: set<string>)
    requires IsLatest(a, versions) && IsLatest(b, versions)
    ensures a == b
  {
    SemverAsymmetric(a, b);
    EmptyIsLeast(a);
    EmptyIsLeast(b);
  }

  lemma {:induction false} Enumeration(versions: set<string>) returns (rows: seq<string>)
    ensures Enumerates(rows, versions)
  {
    rows := [];
    if versions != {} {
      var v :| v in versions;
      var rest := Enumeration(versions - {v});
      rows := [v] + rest;
    }
  }

  /** An order of the rows that starts with two given versions. */
  lemma EnumerationFrom(versions: set<string>, v: string, w: string) returns (rest: seq<string>)
    requires v in versions && w in versions && v != w
    ensures Enumerates([v, w] + rest, versions) && w !in rest
  {
    rest := Enumeration(versions - {v, w});
  }

  /** Every order of the rows gives the same latest version. */
  ghost predicate OrderIndependent(versions: set<string>) {
    forall r, s :: Enumerates(r, versions) && Enumerates(s, versions) ==> Latest(r, "") == Latest(s, "")
  }

  lemma Members(rows: seq<string>, versions: set<string>)
    requires Enumerates(rows, versions)
    ensures forall v :: v in rows <==> v in versions
    ensures versions == {} <==> rows == []
  {
    if rows != [] { assert rows[0] in rows; }
    if versions != {} {
      var v :| v in versions;
      assert v in rows;
    }
  }

  lemma NotPickedAgain(w: string, l: string, rest: seq<string>)
    requires w != "" && w != l && !SemverLess(w, l) && l !in rest
    ensures Latest([w, l] + rest, "") != l
  {
    hide SemverLess;
    var s := [w, l] + rest;
    assert s[1..] == [l] + rest && ([l] + rest)[1..] == rest;
    LatestMember(rest, w);
  }

  /** Without a version that exceeds all others, some two orders give different versions. */
  lemma OrdersDiffer(versions: set<string>) returns (r: seq<string>, s: seq<string>)
    requires versions != {} && !HasLatest(versions)
    ensures Enumerates(r, versions) && Enumerates(s, versions) && Latest(r, "") != Latest(s, "")
  {
    hide SemverLess, Latest, Enumerates;
    r := Enumeration(versions);
    Members(r, versions);
    LatestMember(r, "");
    var l := Latest(r, "");
    assert !IsLatest(l, versions);
    var w :| w in versions && w != l && w != "" && !SemverLess(w, l);
    var rest := EnumerationFrom(versions, w, l);
    s := [w, l] + rest;
    NotPickedAgain(w, l, rest);
  }

  /** The order of the rows is immaterial exactly when there is nothing to pick or some version exceeds
      all others: cycles and ties below it do no harm, at the top they do. */
  lemma OrderIndependentIff(versions: set<string>)
    ensures OrderIndependent(versions) <==> versions == {} || HasLatest(versions)
  {
    if HasLatest(versions) {
      forall r, s | Enumerates(r, versions) && Enumerates(s, versions) ensures Latest(r, "") == Latest(s, "") {
        ScanFindsLatest(r, versions);
        ScanFindsLatest(s, versions);
        LatestUnique(Latest(r, ""), Latest(s, ""), versions);
      }
    } else if versions != {} {
      var r, s := OrdersDiffer(versions);
    } else {
      forall r | Enumerates(r, versions) ensures r == [] {
        Members(r, versions);
      }
    }
  }

  /** The smallest case: two versions, neither of them above the other.  The one read first stays. */
  lemma RowOrderDecidesTies(v: string, w: string)
    ensures v != "" && !SemverLess(v, w) ==> Latest([v, w], "") == v
    ensures Latest([v, w], "") != Latest([w, v], "")
       <==> v != w && v != "" && w != "" && !SemverLess(v, w) && !SemverLess(w, v)
  {
    assert [v, w][1..] == [w] && [w, v][1..] == [v] && [v][1..] == [] && [w][1..] == [];
    assert forall a, b :: Latest([b], a) == if a == "" || SemverLess(a, b) then b else a;
    SemverAsymmetric(v, w);
    EmptyIsLeast(v);
    EmptyIsLeast(w);
  }

  // ----- dotted versions -----

  lemma NotDottedEmpty()
    ensures !Dotted("")
  {
    assert "" in Split("", '.');
    EmptyIsNoNumber();
  }

  /** On dotted versions the scan ends with a version no other exceeds. */
  lemma {:induction false} LatestBounds(rows: seq<string>, acc: string)
    requires (forall v <- rows :: Dotted(v)) && (acc == "" || Dotted(acc))
    ensures var r := Latest(rows, acc);
      (acc != "" ==> Dotted(r) && !SemverLess(r, acc)) && (forall v <- rows :: Dotted(r) && !SemverLess(r, v))
  {
    NotDottedEmpty();
    if acc != "" { DottedStrictWeakOrder(acc, acc, acc); }
    if rows != [] {
      var next := if acc == "" || SemverLess(acc, rows[0]) then rows[0] else acc;
      assert rows[0] in rows && forall v <- rows[1..] :: v in rows;
      LatestBounds(rows[1..], next);
      var r := Latest(rows, acc);
      SemverAsymmetric(acc, rows[0]);
      DottedStrictWeakOrder(r, next, rows[0]);
      DottedStrictWeakOrder(rows[0], rows[0], rows[0]);
      if acc != "" { DottedStrictWeakOrder(r, next, acc); }
      forall v | v in rows ensures Dotted(r) && !SemverLess(r, v) {
        if v != rows[0] { assert v in rows[1..]; }
      }
    }
  }

  /** Dotted versions no two of which have equal components always have a maximum. */
  lemma DottedHaveMaximum(versions: set<string>)
    requires versions != {} && forall v <- versions :: Dotted(v)
    requires forall v, w :: v in versions && w in versions && v != w ==> Nums(v) != Nums(w)
    ensures HasMaximum(versions) && HasLatest(versions)
  {
    var rows := Enumeration(versions);
    var r := Latest(rows, "");
    var some :| some in versions;
    assert some in rows;
    LatestMember(rows, "");
    LatestBounds(rows, "");
    forall v | v in versions && v != r ensures SemverLess(v, r) {
      DottedStrictWeakOrder(v, r, r);
    }
    assert IsMaximum(r, versions) && IsLatest(r, versions);
  }

  // ----- the listing -----

  /** Sorting keeps a listing of the versions a listing of the versions. */
  lemma SortEnumerates(rows: seq<Version>, versions: set<string>)
    requires Enumerates(Names(rows), versions)
    ensures Enumerates(Names(SortDesc(rows)), versions)
    ensures forall v :: v in SortDesc(rows) <==> v in rows
  {
    var list := SortDesc(rows);
    SortPermutes(rows);
    NamesApart(rows);
    NamesApart(list);
    PermutedOnce(rows, list);
    SameElements(rows, list);
    hide SortDesc, Names;
    forall n ensures n in Names(list) <==> n in Names(rows) {
      NamesMembers(list, n);
      NamesMembers(rows, n);
    }
  }

  lemma NamesApart(s: seq<Version>)
    ensures |Names(s)| == |s|
    ensures OnePerVersion(s) <==> forall i, j :: 0 <= i < j < |Names(s)| ==> Names(s)[i] != Names(s)[j]
  {
    assert forall i :: 0 <= i < |s| ==> Names(s)[i] == s[i].version;
    if !OnePerVersion(s) {
      var i, j :| 0 <= i < j < |s| && s[i].version == s[j].version;
      assert Names(s)[i] == Names(s)[j];
    }
  }

  lemma NamesMembers(s: seq<Version>, n: string)
    ensures n in Names(s) <==> exists v <- s :: v.version == n
  {
    if n in Names(s) {
      var i :| 0 <= i < |s| && Names(s)[i] == n;
      assert s[i] in s;
    }
    if exists v <- s :: v.version == n {
      var v :| v in s && v.version == n;
      var i :| 0 <= i < |s| && s[i] == v;
      assert Names(s)[i] == n;
    }
  }

  /** A maximum heads every list of the versions without inversion. */
  lemma MaximumHeads(list: seq<Version>, versions: set<string>, m: string)
    requires Enumerates(Names(list), versions) && NoInversion(list) && IsMaximum(m, versions)
    ensures list != [] && list[0].version == m
    ensures IsLatest(m, versions)
  {
    NamesMembers(list, m);
    var v :| v in list && v.version == m;
    var i :| 0 <= i < |list| && list[i] == v;
    NamesApart(list);
    if i > 0 { NamesMembers(list, list[i - 1].version); }
  }

  /** A version read after one that is not below it never heads the listing. */
  lemma {:induction false} NeverHeads(rows: seq<Version>, h: Version)
    requires |rows| >= 2 && rows[1] == h && !SemverLess(rows[0].version, h.version)
    requires OnePerVersion(rows)
    ensures |SortDesc(rows)| == |rows| && SortDesc(rows)[0].version != h.version
  {
    hide SemverLess, Insert;
    var n := |rows| - 1;
    var init, x := rows[..n], rows[n];
    if n == 1 {
      assert init == [rows[0]];
      SortOne(rows[0]);
      StaysBehind(rows[0], h);
    } else {
      NeverHeads(init, h);
      var p := InsertAt(SortDesc(init), x);
      assert x.version != rows[1].version;
    }
  }

  lemma StaysBehind(v: Version, w: Version)
    requires !SemverLess(v.version, w.version)
    ensures Insert([v], w) == [v] + [w]
  {
  }

  /** Of two rows neither of which is above the other, the one read first is listed first. */
  lemma TiesKeepOrder(v: Version, w: Version)
    ensures SortDesc([v, w]) == if SemverLess(v.version, w.version) then [w, v] else [v, w]
  {
    hide SemverLess;
    SortOne(v);
    SortOne(w);
    assert [v, w][..1] == [v] && [v][..0] == [];
    assert SortDesc([v, w]) == Insert(SortDesc([v, w][..1]), w);
    assert Insert([v], w) == if SemverLess(v.version, w.version) then Insert([v][..0], w) + [v] else [v] + [w];
  }

  function Rows(names: seq<string>): seq<Version> { seq(|names|, i requires 0 <= i < |names| => Version(names[i], "")) }

  lemma NamesOfRows(names: seq<string>)
    ensures Names(Rows(names)) == names
  {
  }

  /** Every order of the rows gives a listing with the same head. */
  ghost predicate HeadIndependent(versions: set<string>) {
    forall r, s :: Enumerates(Names(r), versions) && Enumerates(Names(s), versions) ==>
      SortDesc(r) != [] && SortDesc(s) != [] && SortDesc(r)[0].version == SortDesc(s)[0].version
  }

  /** Without a maximum, some two orders of the rows give listings with different heads. */
  lemma HeadsDiffer(versions: set<string>) returns (r: seq<Version>, s: seq<Version>)
    requires versions != {} && !HasMaximum(versions)
    ensures Enumerates(Names(r), versions) && Enumerates(Names(s), versions)
    ensures |SortDesc(r)| > 0 && |SortDesc(s)| > 0 && SortDesc(r)[0].version != SortDesc(s)[0].version
  {
    hide SemverLess, SortDesc, Enumerates, Names, Rows, OnePerVersion;
    var names := Enumeration(versions);
    r := Rows(names);
    NamesOfRows(names);
    var h := HeadMember(r, versions);
    assert !IsMaximum(h, versions);
    var w :| w in versions && w != h && !SemverLess(w, h);
    var rest := EnumerationFrom(versions, w, h);
    s := Rows([w, h] + rest);
    NamesOfRows([w, h] + rest);
    FirstRows(w, h, rest);
    RowsApart([w, h] + rest, versions);
    NeverHeads(s, Version(h, ""));
  }

  lemma RowsApart(names: seq<string>, versions: set<string>)
    requires Enumerates(names, versions)
    ensures OnePerVersion(Rows(names))
  {
  }

  lemma FirstRows(v: string, w: string, rest: seq<string>)
    ensures var s := Rows([v, w] + rest); |s| >= 2 && s[0] == Version(v, "") && s[1] == Version(w, "")
  {
  }

  lemma HeadMember(rows: seq<Version>, versions: set<string>) returns (h: string)
    requires Enumerates(Names(rows), versions) && versions != {}
    ensures SortDesc(rows) != [] && h == SortDesc(rows)[0].version && h in versions
  {
    hide SemverLess, SortDesc, Enumerates, Names;
    SortEnumerates(rows, versions);
    var list := SortDesc(rows);
    Members(Names(list), versions);
    NamesApart(list);
    h := list[0].version;
    NamesMembers(list, h);
    assert list[0] in list;
  }

  /** The head of the listing is settled exactly when some version exceeds all others. */
  lemma HeadIndependentIff(versions: set<string>)
    ensures HeadIndependent(versions) <==> HasMaximum(versions)
  {
    NoHead();
    hide SemverLess, SortDesc, Enumerates, IsMaximum;
    if HasMaximum(versions) {
      var m :| m in versions && IsMaximum(m, versions);
      forall r | Enumerates(Names(r), versions) ensures SortDesc(r) != [] && SortDesc(r)[0].version == m {
        SortEnumerates(r, versions);
        SortHasNoInversion(r);
        MaximumHeads(SortDesc(r), versions, m);
      }
    } else if versions != {} {
      var r, s := HeadsDiffer(versions);
    }
  }

  lemma NoHead()
    ensures Enumerates(Names([]), {}) && SortDesc([]) == []
  {
  }

  lemma {:induction false} LatestSnoc(rows: seq<string>, v: string, acc: string)
    ensures Latest(rows + [v], acc)
         == (var l := Latest(rows, acc); if l == "" || SemverLess(l, v) then v else l)
  {
    if rows == [] {
      assert rows + [v] == [v] && [v][1..] == [];
    } else {
      assert (rows + [v])[1..] == rows[1..] + [v];
      LatestSnoc(rows[1..], v, if acc == "" || SemverLess(acc, rows[0]) then rows[0] else acc);
    }
  }
}
