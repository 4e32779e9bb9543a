/** When an asset shows the metadata of its latest version: the exact condition on the versions that a
    serial run leaves, and the smallest run after which it shows another version's. */
module MarketMetadata {
  import opened Text
  import opened MarketSemver
  import opened MarketLatest
  import opened MarketStore

  /** The run is legal and leaves the asset with exactly these versions. */
  ghost predicate Leaves(ops: seq<Op>, k: AssetKey, versions: set<string>) {
    LegalRun(ops) && k in Run(ops).0.assets && VersionsOf(Run(ops).0, Run(ops).0.assets[k].id) == versions
  }

  ghost predicate Shows(ops: seq<Op>, k: AssetKey)
    requires k in Run(ops).0.assets
  {
    ShowsLatest(Run(ops).0.assets[k], Run(ops).1)
  }

  /** After every such run the asset shows what its latest version declared, but for later edits. */
  ghost predicate AlwaysShows(versions: set<string>) {
    forall ops, k | Leaves(ops, k, versions) :: Shows(ops, k)
  }

  // ----- runs of pushes -----

  /** A recipe whose license names its version, so that it shows where metadata came from. */
  function Declares(v: string): Meta { Meta("", v, "", v, "", []) }

  function PushOf(v: string, rows: seq<string>): Op { Push(PushInput("", "", Declares(v), "", ""), rows) }

  const KEY := AssetKey("", 0, "")

  /** The store holds one asset, with these versions. */
  predicate Published(t: Tables, h: History, versions: set<string>) {
    t.authors == map["" := 0] && KEY in t.assets && t.assets[KEY].id == 0 && VersionsOf(t, 0) == versions &&
    forall v <- versions :: (0, v) in h.pushed && h.pushed[(0, v)].license == v
  }

  lemma FirstPush(v: string)
    ensures var t, h := Run([]).0, Run([]).1;
      Legal(t, PushOf(v, [v])) &&
      var t', h' := Apply(t, PushOf(v, [v])).0, Note(h, t, PushOf(v, [v]));
      Published(t', h', {v}) && t'.assets[KEY].latest == v && t'.assets[KEY].license == v
  {
    hide SemverLess;
    var t, input := EMPTY, PushOf(v, [v]).input;
    assert ToLower("") == "";
    assert PushKey(t, input) == KEY && PushId(t, input) == 0;
    assert VersionsOf(t, 0) == {} && !Duplicate(t, input);
    assert [v][1..] == [] && Latest([v], "") == v;
    var t' := Put(t, input, [v]).0;
    assert t'.versions.Keys == {(0, v)};
    assert VersionsOf(t', 0) == {v};
  }

  lemma NextPush(t: Tables, h: History, versions: set<string>, v: string, rows: seq<string>)
    requires Published(t, h, versions) && v !in versions && Enumerates(rows, versions + {v})
    ensures Legal(t, PushOf(v, rows))
    ensures var t', h' := Apply(t, PushOf(v, rows)).0, Note(h, t, PushOf(v, rows));
      Published(t', h', versions + {v}) && t'.assets[KEY].latest == Latest(rows, "") &&
      t'.assets[KEY].license == if Latest(rows, "") == v then v else t.assets[KEY].license
  {
    hide SemverLess, Latest, Enumerates;
    var input := PushOf(v, rows).input;
    assert ToLower("") == "";
    assert PushKey(t, input) == KEY && WithAsset(t, input) == t;
    VersionRow(t, 0, v);
    PutVersions(t, input, rows, 0);
  }

  lemma VersionRow(t: Tables, id: nat, v: string)
    ensures (id, v) in t.versions <==> v in VersionsOf(t, id)
  {
  }

  lemma RunNext(ops: seq<Op>, op: Op)
    requires LegalRun(ops) && Legal(Run(ops).0, op)
    ensures LegalRun(ops + [op])
    ensures Run(ops + [op]) == (Apply(Run(ops).0, op).0, Note(Run(ops).1, Run(ops).0, op))
  {
    hide Apply, Note, Legal;
    assert (ops + [op])[..|ops|] == ops;
  }

  lemma {:induction false} PublishAll(versions: set<string>) returns (ops: seq<Op>)
    requires versions != {}
    ensures LegalRun(ops) && Published(Run(ops).0, Run(ops).1, versions)
  {
    hide Published, Apply, Note, Legal, Enumerates, LegalRun, Run;
    var v :| v in versions;
    var before := versions - {v};
    if before == {} {
      FirstPush(v);
      RunNext([], PushOf(v, [v])) by { NothingRun(); }
      ops := [] + [PushOf(v, [v])];
      assert versions == {v};
    } else {
      ops := PublishAll(before);
      var rows := Enumeration(versions);
      assert before + {v} == versions;
      NextPush(Run(ops).0, Run(ops).1, before, v, rows);
      RunNext(ops, PushOf(v, rows));
      ops := ops + [PushOf(v, rows)];
    }
  }

  lemma NothingRun()
    ensures LegalRun([])
  {
  }

  // ----- the exact condition -----

  /** With three versions and none above all others, some run shows another version's metadata: the
      version pushed last is not picked, and of the two that row order can make the latest, at least one
      is not the version whose metadata is on the row. */
  lemma ShowsAnother(versions: set<string>) returns (ops: seq<Op>)
    requires !HasLatest(versions) && |versions| > 2
    ensures Leaves(ops, KEY, versions) && !Shows(ops, KEY)
  {
    hide HasLatest, Latest, Enumerates, Apply, Note, Legal, LegalRun, Run;
    var r, s := OrdersDiffer(versions);
    Members(r, versions);
    Members(s, versions);
    LatestMember(r, "");
    LatestMember(s, "");
    var v := Third(versions, Latest(r, ""), Latest(s, ""));
    assert Latest(r, "") in versions - {v};
    var before := PublishAll(versions - {v});
    assert versions - {v} + {v} == versions;
    var (t, h) := Run(before);
    var rows := if t.assets[KEY].license == Latest(r, "") then s else r;
    NextPush(t, h, versions - {v}, v, rows);
    RunNext(before, PushOf(v, rows));
    ops := before + [PushOf(v, rows)];
  }

  lemma Third(versions: set<string>, a: string, b: string) returns (v: string)
    requires |versions| > 2 && a in versions && b in versions
    ensures v in versions && v != a && v != b
  {
    var rest := versions - {a} - {b};
    assert |versions - {a}| == |versions| - 1 && |rest| >= |versions - {a}| - 1;
    assert rest != {};
    v :| v in rest;
  }

  /** Every legal run that leaves these versions shows the metadata of the latest one exactly when some
      version exceeds all others or there are at most two. */
  lemma MetadataIff(versions: set<string>)
    ensures AlwaysShows(versions) <==> MetadataSettled(versions)
  {
    hide HasLatest, LegalRun, Run, ShowsLatest;
    if MetadataSettled(versions) {
      forall ops, k | Leaves(ops, k, versions) ensures Shows(ops, k) {
        RunIsSound(ops);
        RowIsSound(Run(ops).0, Run(ops).1, k);
      }
    } else {
      var ops := ShowsAnother(versions);
    }
  }

  /** The smallest such run: 10, 9 and 1a are pushed, the last rows read as 10, 1a, 9; the latest version
      is 9 and the license is that of 10. */
  lemma LicenseOfAnother(ops: seq<Op>)
    requires ops == [PushOf("10", ["10"]), PushOf("9", ["10", "9"]), PushOf("1a", ["10", "1a", "9"])]
    ensures LegalRun(ops) && KEY in Run(ops).0.assets
    ensures Run(ops).0.assets[KEY].latest == "9" && Run(ops).0.assets[KEY].license == "10"
  {
    Scans();
    hide SemverLess, Latest, Apply, Note, Legal, LegalRun, Run;
    NothingRun();
    var one := [] + [ops[0]];
    var two := one + [ops[1]];
    assert ops == two + [ops[2]];
    FirstPush("10");
    RunNext([], ops[0]);
    NextPush(Run(one).0, Run(one).1, {"10"}, "9", ["10", "9"]);
    RunNext(one, ops[1]);
    assert {"10"} + {"9"} == {"10", "9"};
    NextPush(Run(two).0, Run(two).1, {"10", "9"}, "1a", ["10", "1a", "9"]);
    RunNext(two, ops[2]);
  }

  lemma Scans()
    ensures Latest(["10", "9"], "") == "10" && Latest(["10", "1a", "9"], "") == "9"
  {
    SemverCycle();
    SemverAsymmetric("9", "10");
    hide SemverLess;
    assert ["10", "9"][1..] == ["9"] && ["9"][1..] == [];
    assert ["10", "1a", "9"][1..] == ["1a", "9"] && ["1a", "9"][1..] == ["9"];
  }
}
