/** What the store shows for an asset, read off the operations alone: whether it exists, its visibility,
    price, token and downloads, and the body and hash of every version. */
module MarketListing {
  import opened Text
  import opened MarketLatest
  import opened MarketStore

  /** What was done to an asset since its row was created. */
  datatype Listing = Listing(
    visibility: string, price: string, token: string, downloads: nat, versions: map<string, Row>)

  /** A new asset is private, free, and never downloaded. */
  const NEW := Listing("private", "0", "", 0, map[])

  type Listings = map<Ref, Listing>

  /** Requests name an author in any letter case. */
  function Normal(r: Ref): Ref { r.(eoa := ToLower(r.eoa)) }

  function PushedRef(input: PushInput): Ref { Ref(input.typ, ToLower(input.author), input.meta.name) }

  function WithVersion(l: Listing, v: string, row: Row): Listing {
    if v in l.versions then l else l.(versions := l.versions[v := row])
  }

  function ListStep(ls: Listings, op: Op): Listings {
    match op
    case Push(input, _) =>
      var r := PushedRef(input);
      ls[r := WithVersion(if r in ls then ls[r] else NEW, input.meta.version, Row(input.sha256, input.body))]
    case Visibility(q, v) => var r := Normal(q); if r in ls then ls[r := ls[r].(visibility := v)] else ls
    case Price(q, price, token) =>
      var r := Normal(q);
      if r in ls then ls[r := ls[r].(price := price, token := TokenText(token))] else ls
    case Edit(_, _, _) => ls
    case Delete(q) => ls - {Normal(q)}
    case Download(q) => var r := Normal(q); if r in ls then ls[r := ls[r].(downloads := ls[r].downloads + 1)] else ls
  }

  /** The listings after these operations, no table being looked at. */
  function Listed(ops: seq<Op>): Listings {
    if ops == [] then map[] else ListStep(Listed(ops[..|ops| - 1]), ops[|ops| - 1])
  }

  // ----- the tables -----

  function RowsOf(t: Tables, id: nat): map<string, Row> {
    map v | v in VersionsOf(t, id) && (id, v) in t.versions :: t.versions[(id, v)]
  }

  predicate Lower(r: Ref) { r.eoa == ToLower(r.eoa) }

  /** The row shows the listing. */
  predicate ShowsListing(t: Tables, a: Asset, l: Listing) {
    a.visibility == l.visibility && a.price == l.price && TokenText(a.token) == l.token &&
    a.downloads == l.downloads && RowsOf(t, a.id) == l.versions
  }

  /** The asset exists exactly when it is listed, and shows its listing. */
  predicate Agrees(t: Tables, ls: Listings, r: Ref) {
    (Find(t, r).Some? <==> r in ls) &&
    (Find(t, r).Some? && r in ls ==> ShowsListing(t, t.assets[Find(t, r).value], ls[r]))
  }

  ghost predicate AllAgree(t: Tables, ls: Listings) { forall r | Lower(r) :: Agrees(t, ls, r) }

  lemma FindNormal(t: Tables, r: Ref)
    ensures Find(t, r) == Find(t, Normal(r)) && Lower(Normal(r))
  {
    LowerTwice(r.eoa);
  }

  /** Different references find different assets, with different ids. */
  lemma FindApart(t: Tables, h: History, q: Ref, r: Ref)
    requires Sound(t, h) && Lower(q) && Lower(r) && q != r && Find(t, q).Some? && Find(t, r).Some?
    ensures Find(t, q) != Find(t, r) && t.assets[Find(t, q).value].id != t.assets[Find(t, r).value].id
  {
    hide ToLower, RowsOwned, AssetSound;
    var k, j := Find(t, q).value, Find(t, r).value;
    assert t.authors[q.eoa] == k.authorId && t.authors[r.eoa] == j.authorId;
    assert IdsUnique(t);
  }

  lemma RowChange(t: Tables, t': Tables, h: History, ls: Listings, r: Ref, l: Listing)
    requires Sound(t, h) && AllAgree(t, ls) && Lower(r) && Find(t, r).Some?
    requires var k := Find(t, r).value;
      k in t'.assets && t' == t.(assets := t.assets[k := t'.assets[k]]) && t'.assets[k].id == t.assets[k].id &&
      ShowsListing(t', t'.assets[k], l)
    ensures AllAgree(t', ls[r := l])
  {
    hide ToLower, Sound, ShowsListing;
    var k := Find(t, r).value;
    forall q | Lower(q) ensures Agrees(t', ls[r := l], q) {
      assert Agrees(t, ls, q) && Agrees(t, ls, r);
      assert Find(t', q) == Find(t, q);
      if q != r && Find(t, q).Some? {
        FindApart(t, h, q, r);
        SameShows(t, t', t.assets[Find(t, q).value], ls[q]);
      }
    }
  }

  lemma SameShows(t: Tables, t': Tables, a: Asset, l: Listing)
    requires t'.versions == t.versions && ShowsListing(t, a, l)
    ensures ShowsListing(t', a, l)
  {
    assert VersionsOf(t', a.id) == VersionsOf(t, a.id);
  }

  lemma UpdateAgrees(t: Tables, h: History, ls: Listings, op: Op)
    requires Sound(t, h) && AllAgree(t, ls) && !op.Push? && !op.Delete?
    ensures AllAgree(Apply(t, op).0, ListStep(ls, op))
  {
    var r := Normal(op.r);
    FindNormal(t, op.r);
    assert Agrees(t, ls, r);
    NothingFound(t, ls, op);
    hide Apply, ShowsListing, Sound, Find, ToLower;
    if Find(t, r).Some? {
      UpdateRow(t, ls, op, r);
      RowChange(t, Apply(t, op).0, h, ls, r, ListStep(ls, op)[r]);
    }
  }

  lemma NothingFound(t: Tables, ls: Listings, op: Op)
    requires !op.Push? && !op.Delete?
    ensures Find(t, op.r).None? ==> Apply(t, op).0 == t
    ensures Normal(op.r) !in ls ==> ListStep(ls, op) == ls
    ensures Normal(op.r) in ls ==>
      Normal(op.r) in ListStep(ls, op) && ListStep(ls, op) == ls[Normal(op.r) := ListStep(ls, op)[Normal(op.r)]]
  {
    hide ToLower;
  }

  lemma UpdateRow(t: Tables, ls: Listings, op: Op, r: Ref)
    requires !op.Push? && !op.Delete? && r == Normal(op.r) && Find(t, op.r) == Find(t, r) && Find(t, r).Some?
    requires Agrees(t, ls, r)
    ensures var k, t' := Find(t, r).value, Apply(t, op).0;
      k in t'.assets && t' == t.(assets := t.assets[k := t'.assets[k]]) && t'.assets[k].id == t.assets[k].id &&
      r in ls && r in ListStep(ls, op) && ShowsListing(t', t'.assets[k], ListStep(ls, op)[r])
  {
    hide ToLower, Find;
    var k := Find(t, r).value;
    assert t.assets[k := t.assets[k]] == t.assets;
    assert VersionsOf(Apply(t, op).0, t.assets[k].id) == VersionsOf(t, t.assets[k].id);
  }

  lemma DeleteAgrees(t: Tables, h: History, ls: Listings, q: Ref)
    requires Sound(t, h) && AllAgree(t, ls)
    ensures AllAgree(DeleteAsset(t, q).0, ls - {Normal(q)})
  {
    var r, t' := Normal(q), DeleteAsset(t, q).0;
    FindNormal(t, q);
    hide ToLower, Sound, ShowsListing;
    assert Agrees(t, ls, r);
    forall p | Lower(p) ensures Agrees(t', ls - {r}, p) {
      assert Agrees(t, ls, p);
      if Find(t, q).Some? && p != r && Find(t, p).Some? {
        FindApart(t, h, p, r);
        StaysShown(t, t', t.assets[Find(t, r).value].id, t.assets[Find(t, p).value], ls[p]);
      }
    }
  }

  lemma StaysShown(t: Tables, t': Tables, gone: nat, a: Asset, l: Listing)
    requires a.id != gone && t'.versions == (map v | v in t.versions && v.0 != gone :: t.versions[v])
    requires ShowsListing(t, a, l)
    ensures ShowsListing(t', a, l)
  {
    forall v ensures v in VersionsOf(t', a.id) <==> v in VersionsOf(t, a.id) {
      assert v in VersionsOf(t', a.id) <==> (a.id, v) in t'.versions;
      assert v in VersionsOf(t, a.id) <==> (a.id, v) in t.versions;
    }
    assert RowsOf(t', a.id) == RowsOf(t, a.id);
  }

  // ----- pushes -----

  lemma PushFinds(t: Tables, h: History, input: PushInput, rows: seq<string>, q: Ref)
    requires Sound(t, h) && Lower(q)
    ensures var t' := Put(t, input, rows).0;
      if q == PushedRef(input) then Find(t', q) == Some(PushKey(t, input))
      else Find(t', q) == Find(t, q) && Find(t, q) != Some(PushKey(t, input))
  {
    LowerTwice(input.author);
    hide ToLower, Refreshed, Join, RowsOwned, IdsUnique, AssetSound;
  }

  lemma PushRow(t: Tables, h: History, ls: Listings, input: PushInput, rows: seq<string>)
    requires Sound(t, h) && Agrees(t, ls, PushedRef(input))
    ensures var t' := Put(t, input, rows).0; var key := PushKey(t, input);
      key in t'.assets && ShowsListing(t', t'.assets[key], ListStep(ls, Push(input, rows))[PushedRef(input)])
  {
    var r := PushedRef(input);
    BeforePush(t, h, ls, input);
    hide Put, ShowsListing, Agrees, Sound, Find, ToLower, WithAsset, PushKey;
    RowAfterPush(t, input, rows, if r in ls then ls[r] else NEW);
  }

  lemma RowAfterPush(t: Tables, input: PushInput, rows: seq<string>, l: Listing)
    requires ShowsListing(WithAsset(t, input), WithAsset(t, input).assets[PushKey(t, input)], l)
    ensures var t' := Put(t, input, rows).0; var key := PushKey(t, input);
      key in t'.assets &&
      ShowsListing(t', t'.assets[key], WithVersion(l, input.meta.version, Row(input.sha256, input.body)))
  {
    hide ToLower, Join, WithAsset, PushKey, Refreshed, RowsOf;
    var t2, id, v, row := WithAsset(t, input), PushId(t, input), input.meta.version, Row(input.sha256, input.body);
    RefreshKeepsRest(t2.assets[PushKey(t, input)], input.meta, rows);
    VersionKnown(t2, id, v);
    if !Duplicate(t, input) {
      AddsRow(t2, t2.(versions := t2.versions[(id, v) := row]), id, v, row);
      OnlyVersions(t2.(versions := t2.versions[(id, v) := row]), Put(t, input, rows).0, id);
    }
  }

  lemma OnlyVersions(t: Tables, t': Tables, id: nat)
    requires t'.versions == t.versions
    ensures RowsOf(t', id) == RowsOf(t, id)
  {
    assert VersionsOf(t', id) == VersionsOf(t, id);
  }

  lemma RefreshKeepsRest(a: Asset, m: Meta, rows: seq<string>)
    ensures var b := Refreshed(a, m, rows);
      b.id == a.id && b.visibility == a.visibility && b.price == a.price && b.token == a.token &&
      b.downloads == a.downloads
  {
  }

  lemma VersionKnown(t: Tables, id: nat, v: string)
    ensures (id, v) in t.versions <==> v in RowsOf(t, id)
  {
  }

  lemma AddsRow(t: Tables, t': Tables, id: nat, v: string, row: Row)
    requires t'.versions == t.versions[(id, v) := row]
    ensures RowsOf(t', id) == RowsOf(t, id)[v := row]
  {
    forall w ensures w in VersionsOf(t', id) <==> w in VersionsOf(t, id) || w == v {
      assert w in VersionsOf(t', id) <==> (id, w) in t'.versions;
      assert w in VersionsOf(t, id) <==> (id, w) in t.versions;
    }
  }

  /** The row that a push finds or makes shows the listing so far. */
  lemma BeforePush(t: Tables, h: History, ls: Listings, input: PushInput)
    requires Sound(t, h) && Agrees(t, ls, PushedRef(input))
    ensures var r, t2 := PushedRef(input), WithAsset(t, input);
      ShowsListing(t2, t2.assets[PushKey(t, input)], if r in ls then ls[r] else NEW)
  {
    var r, key, t2 := PushedRef(input), PushKey(t, input), WithAsset(t, input);
    FindPushed(t, h, input);
    if Find(t, r).Some? {
      hide ToLower, Join, Sound, Find, ShowsListing;
      SameShows(t, t2, t.assets[key], ls[r]);
    } else {
      FreshIdHasNoVersions(t, h, t.nextAsset);
      hide Sound, Find, ShowsListing, WithAsset, PushKey;
      NewRow(t, input);
    }
  }

  lemma NewRow(t: Tables, input: PushInput)
    requires PushKey(t, input) !in WithAuthor(t, input.author).assets && VersionsOf(t, t.nextAsset) == {}
    ensures ShowsListing(WithAsset(t, input), WithAsset(t, input).assets[PushKey(t, input)], NEW)
  {
    hide ToLower, Join;
    assert VersionsOf(WithAsset(t, input), t.nextAsset) == VersionsOf(t, t.nextAsset);
  }

  lemma FindPushed(t: Tables, h: History, input: PushInput)
    requires Sound(t, h)
    ensures var r, key, t1 := PushedRef(input), PushKey(t, input), WithAuthor(t, input.author);
      Find(t, r) == (if key in t.assets then Some(key) else None) && t1.assets == t.assets &&
      t1.versions == t.versions && t1.nextAsset == t.nextAsset
  {
    LowerTwice(input.author);
    hide ToLower, AssetSound, IdsUnique, RowsOwned;
  }

  lemma PushAgrees(t: Tables, h: History, ls: Listings, input: PushInput, rows: seq<string>)
    requires Sound(t, h) && AllAgree(t, ls) && Legal(t, Push(input, rows))
    ensures AllAgree(Put(t, input, rows).0, ListStep(ls, Push(input, rows)))
  {
    var t', ls', r := Put(t, input, rows).0, ListStep(ls, Push(input, rows)), PushedRef(input);
    LowerTwice(input.author);
    assert Agrees(t, ls, r);
    PushFinds(t, h, input, rows, r);
    PushRow(t, h, ls, input, rows);
    hide ToLower, Put, PushKey, ShowsListing, Find, Sound;
    forall q | Lower(q) ensures Agrees(t', ls', q) {
      if q != r {
        PushFinds(t, h, input, rows, q);
        assert Agrees(t, ls, q);
        if Find(t, q).Some? { OtherPushed(t, h, ls, input, rows, q); }
      }
    }
  }

  lemma OtherPushed(t: Tables, h: History, ls: Listings, input: PushInput, rows: seq<string>, q: Ref)
    requires Sound(t, h) && Find(t, q).Some? && Find(t, q) != Some(PushKey(t, input)) && q in ls
    requires ShowsListing(t, t.assets[Find(t, q).value], ls[q])
    ensures var t', k := Put(t, input, rows).0, Find(t, q).value;
      k in t'.assets && ShowsListing(t', t'.assets[k], ls[q])
  {
    var k := Find(t, q).value;
    PutLeavesAsset(t, input, rows, k);
    OtherId(t, h, input, k);
    PutRows(t, input, rows);
    hide Put, Sound, Find, PushKey, PushId;
    SameRows(t, Put(t, input, rows).0, t.assets[k].id);
  }

  lemma PutRows(t: Tables, input: PushInput, rows: seq<string>)
    ensures var t' := Put(t, input, rows).0;
      forall id, v :: id != PushId(t, input) ==>
        ((id, v) in t'.versions <==> (id, v) in t.versions) &&
        ((id, v) in t.versions ==> t'.versions[(id, v)] == t.versions[(id, v)])
  {
    hide ToLower, Join, Refreshed;
  }

  lemma OtherId(t: Tables, h: History, input: PushInput, k: AssetKey)
    requires Sound(t, h) && k in t.assets && k != PushKey(t, input)
    ensures PushId(t, input) != t.assets[k].id
  {
    IdInRange(t, h, k);
    hide ToLower, Join, AssetSound, RowsOwned;
  }

  lemma SameRows(t: Tables, t': Tables, id: nat)
    requires forall v :: ((id, v) in t'.versions <==> (id, v) in t.versions)
    requires forall v :: (id, v) in t.versions ==> t'.versions[(id, v)] == t.versions[(id, v)]
    ensures RowsOf(t', id) == RowsOf(t, id)
  {
    forall v ensures v in VersionsOf(t', id) <==> v in VersionsOf(t, id) {
      assert v in VersionsOf(t', id) <==> (id, v) in t'.versions;
      assert v in VersionsOf(t, id) <==> (id, v) in t.versions;
    }
  }

  // ----- theorems -----

  /** Over every legal run: an asset exists exactly when it was pushed and not deleted since; it is private
      until its visibility is set and then what was set last, likewise free until its price and token are
      set; its downloads are counted; and its versions are those pushed, each with the body and hash of its
      first push. */
  lemma {:induction false} ListingRule(ops: seq<Op>)
    requires LegalRun(ops)
    ensures AllAgree(Run(ops).0, Listed(ops))
  {
    hide Apply, ListStep, Note, Legal;
    if ops == [] {
      NothingListed();
    } else {
      var init, op := ops[..|ops| - 1], ops[|ops| - 1];
      ListingRule(init);
      RunIsSound(init);
      StepAgrees(Run(init).0, Run(init).1, Listed(init), op);
    }
  }

  lemma NothingListed()
    ensures AllAgree(EMPTY, map[])
  {
  }

  lemma StepAgrees(t: Tables, h: History, ls: Listings, op: Op)
    requires Sound(t, h) && AllAgree(t, ls) && Legal(t, op)
    ensures AllAgree(Apply(t, op).0, ListStep(ls, op))
  {
    match op
    case Push(input, rows) => PushAgrees(t, h, ls, input, rows);
    case Delete(q) => DeleteAgrees(t, h, ls, q);
    case _ => UpdateAgrees(t, h, ls, op);
  }

  /** What a reader gets: a version's first body and hash with the visibility set last; "" asks for the
      latest version; an unknown asset or version is not found. */
  lemma RecipeRead(ops: seq<Op>, q: Ref, version: string)
    requires LegalRun(ops)
    ensures var ls, r, t := Listed(ops), Normal(q), Run(ops).0;
      if r !in ls then GetRecipe(t, q, version).None?
      else
        Find(t, q).Some? &&
        var l, v := ls[r], if version == "" then t.assets[Find(t, q).value].latest else version;
        GetRecipe(t, q, version)
        == if v in l.versions then Some(Recipe(l.versions[v].body, l.versions[v].sha256, l.visibility)) else None
  {
    var t := Run(ops).0;
    ListingRule(ops);
    FindNormal(t, q);
    assert Agrees(t, Listed(ops), Normal(q));
    hide Run, Listed, ToLower, Find;
    if Find(t, q).Some? {
      var a := t.assets[Find(t, q).value];
      VersionKnown(t, a.id, if version == "" then a.latest else version);
    }
  }

  /** The latest version can always be read. */
  lemma LatestReadable(ops: seq<Op>, q: Ref)
    requires LegalRun(ops) && Normal(q) in Listed(ops)
    ensures GetRecipe(Run(ops).0, q, "").Some?
  {
    var t, h := Run(ops).0, Run(ops).1;
    RunIsSound(ops);
    RecipeRead(ops, q, "");
    ListingRule(ops);
    FindNormal(t, q);
    assert Agrees(t, Listed(ops), Normal(q));
    hide Run, Listed, ToLower, Find;
    RowIsSound(t, h, Find(t, q).value);
    VersionKnown(t, t.assets[Find(t, q).value].id, t.assets[Find(t, q).value].latest);
  }

  /** What a push reports: that the version exists, exactly when it is listed; otherwise the asset's row. */
  lemma PushReports(ops: seq<Op>, input: PushInput, rows: seq<string>)
    requires LegalRun(ops)
    ensures var ls, r := Listed(ops), PushedRef(input); var (t', o) := Put(Run(ops).0, input, rows);
      if r in ls && input.meta.version in ls[r].versions then o == VersionExists
      else PushKey(Run(ops).0, input) in t'.assets && o == Pushed(t'.assets[PushKey(Run(ops).0, input)])
  {
    var t, h, ls := Run(ops).0, Run(ops).1, Listed(ops);
    RunIsSound(ops);
    ListingRule(ops);
    LowerTwice(input.author);
    assert Agrees(t, ls, PushedRef(input));
    BeforePush(t, h, ls, input);
    hide Run, Listed, ToLower, Refreshed, Sound, WithAsset;
    VersionKnown(WithAsset(t, input), PushId(t, input), input.meta.version);
  }
}
