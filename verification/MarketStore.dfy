/** The publish store: three tables and the operations on them.  The functions say what one completed
    call does to the tables; the class performs the calls row by row. */
module MarketStore {
  import opened Text
  import opened MarketSemver
  import opened MarketLatest

  // ----- tables -----

  /** The unique key of an asset row. */
  datatype AssetKey = AssetKey(typ: string, authorId: nat, name: string)

  datatype Asset = Asset(
    id: nat, latest: string, summary: string, license: string, minIsann: string, tags: string,
    visibility: string, price: string, token: Option<string>, downloads: nat)

  /** The immutable part of a published version. */
  datatype Row = Row(sha256: string, body: string)

  /** Authors by lowercase address, assets by their unique key, versions by asset id and version. */
  datatype Tables = Tables(
    authors: map<string, nat>, assets: map<AssetKey, Asset>, versions: map<(nat, string), Row>,
    nextAuthor: nat, nextAsset: nat)

  const EMPTY := Tables(map[], map[], map[], 0, 0)

  /** What a recipe declares about itself. */
  datatype Meta = Meta(
    name: string, version: string, summary: string, license: string, minIsann: string, tags: seq<string>)

  datatype PushInput = PushInput(typ: string, author: string, meta: Meta, body: string, sha256: string)

  /** Names an asset the way requests do. */
  datatype Ref = Ref(typ: string, eoa: string, name: string)

  datatype Outcome =
    | Pushed(asset: Asset)
    | VersionExists
    | NotFound
    | Changed(changed: bool)

  function VersionsOf(t: Tables, id: nat): set<string> {
    set k | k in t.versions.Keys && k.0 == id :: k.1
  }

  /** The asset a request means: its author is known and the asset row exists. */
  function Find(t: Tables, r: Ref): (k: Option<AssetKey>)
    ensures k.Some? ==> k.value in t.assets
  {
    var eoa := ToLower(r.eoa);
    if eoa in t.authors && AssetKey(r.typ, t.authors[eoa], r.name) in t.assets
    then Some(AssetKey(r.typ, t.authors[eoa], r.name)) else None
  }

  // ----- writes -----

  /** `authorID`: the author row of an address, created if missing. */
  function WithAuthor(t: Tables, eoa: string): Tables {
    if ToLower(eoa) in t.authors then t
    else t.(authors := t.authors[ToLower(eoa) := t.nextAuthor], nextAuthor := t.nextAuthor + 1)
  }

  function PushKey(t: Tables, input: PushInput): AssetKey {
    AssetKey(input.typ, WithAuthor(t, input.author).authors[ToLower(input.author)], input.meta.name)
  }

  /** The tables once the author and asset rows exist. */
  function WithAsset(t: Tables, input: PushInput): (t': Tables)
    ensures PushKey(t, input) in t'.assets
  {
    var t1, key, m := WithAuthor(t, input.author), PushKey(t, input), input.meta;
    if key in t1.assets then t1
    else
      var tags := Join(m.tags, ",");
      var asset := Asset(t1.nextAsset, m.version, m.summary, m.license, m.minIsann, tags, "private", "0", None, 0);
      t1.(assets := t1.assets[key := asset], nextAsset := t1.nextAsset + 1)
  }

  function PushId(t: Tables, input: PushInput): nat { WithAsset(t, input).assets[PushKey(t, input)].id }

  /** `refreshLatest`, for rows read in the given order. */
  function Refreshed(a: Asset, m: Meta, rows: seq<string>): Asset {
    var latest := Latest(rows, "");
    if latest == m.version then
      a.(latest := latest, summary := m.summary, license := m.license, minIsann := m.minIsann,
         tags := Join(m.tags, ","))
    else a.(latest := latest)
  }

  /** Whether a push finds its version already published. */
  predicate Duplicate(t: Tables, input: PushInput) {
    (PushId(t, input), input.meta.version) in WithAsset(t, input).versions
  }

  /** `PutAsset`; `rows` is the order in which the version rows are read back. */
  function Put(t: Tables, input: PushInput, rows: seq<string>): (Tables, Outcome) {
    var t2, key, id := WithAsset(t, input), PushKey(t, input), PushId(t, input);
    if Duplicate(t, input) then (t2, VersionExists)
    else
      var asset := Refreshed(t2.assets[key], input.meta, rows);
      (t2.(versions := t2.versions[(id, input.meta.version) := Row(input.sha256, input.body)],
           assets := t2.assets[key := asset]),
       Pushed(asset))
  }

  /** The rows a push reads back are exactly the asset's versions, the new one included. */
  predicate ReadsBack(t: Tables, input: PushInput, rows: seq<string>) {
    Enumerates(rows, VersionsOf(t, PushId(t, input)) + {input.meta.version})
  }

  function SetVisibility(t: Tables, r: Ref, visibility: string): (Tables, Outcome) {
    match Find(t, r)
    case None => (t, NotFound)
    case Some(k) =>
      var a := t.assets[k];
      if a.visibility == visibility then (t, Changed(false))
      else (t.(assets := t.assets[k := a.(visibility := visibility)]), Changed(true))
  }

  function TokenText(token: Option<string>): string { if token.Some? then token.value else "" }

  function SetPrice(t: Tables, r: Ref, price: string, token: Option<string>): (Tables, Outcome) {
    match Find(t, r)
    case None => (t, NotFound)
    case Some(k) =>
      var a := t.assets[k];
      if a.price == price && TokenText(a.token) == TokenText(token) then (t, Changed(false))
      else (t.(assets := t.assets[k := a.(price := price, token := token)]), Changed(true))
  }

  function OrElse(new_: Option<string>, old_: string): string { if new_.Some? then new_.value else old_ }

  function SetMeta(t: Tables, r: Ref, tags: Option<string>, summary: Option<string>): (Tables, Outcome) {
    match Find(t, r)
    case None => (t, NotFound)
    case Some(k) =>
      var a := t.assets[k];
      var b := a.(tags := OrElse(tags, a.tags), summary := OrElse(summary, a.summary));
      if b == a then (t, Changed(false)) else (t.(assets := t.assets[k := b]), Changed(true))
  }

  function DeleteAsset(t: Tables, r: Ref): (Tables, Outcome) {
    match Find(t, r)
    case None => (t, Changed(false))
    case Some(k) =>
      var id := t.assets[k].id;
      (t.(versions := map v | v in t.versions && v.0 != id :: t.versions[v], assets := t.assets - {k}), Changed(true))
  }

  function IncrDownloads(t: Tables, r: Ref): (Tables, Outcome) {
    match Find(t, r)
    case None => (t, Changed(false))
    case Some(k) =>
      (t.(assets := t.assets[k := t.assets[k].(downloads := t.assets[k].downloads + 1)]), Changed(true))
  }

  // ----- reads -----

  datatype Recipe = Recipe(body: string, sha256: string, visibility: string)

  /** `GetRecipe`: a version's body and hash; "" asks for the latest. */
  function GetRecipe(t: Tables, r: Ref, version: string): Option<Recipe> {
    match Find(t, r)
    case None => None
    case Some(k) =>
      var a := t.assets[k];
      var v := if version == "" then a.latest else version;
      if (a.id, v) in t.versions
      then Some(Recipe(t.versions[(a.id, v)].body, t.versions[(a.id, v)].sha256, a.visibility)) else None
  }

  // ----- operations and runs -----

  datatype Op =
    | Push(input: PushInput, rows: seq<string>)
    | Visibility(r: Ref, visibility: string)
    | Price(r: Ref, price: string, token: Option<string>)
    | Edit(r: Ref, tags: Option<string>, summary: Option<string>)
    | Delete(r: Ref)
    | Download(r: Ref)

  function Apply(t: Tables, op: Op): (Tables, Outcome) {
    match op
    case Push(input, rows) => Put(t, input, rows)
    case Visibility(r, v) => SetVisibility(t, r, v)
    case Price(r, price, token) => SetPrice(t, r, price, token)
    case Edit(r, tags, summary) => SetMeta(t, r, tags, summary)
    case Delete(r) => DeleteAsset(t, r)
    case Download(r) => IncrDownloads(t, r)
  }

  predicate Legal(t: Tables, op: Op) { op.Push? && !Duplicate(t, op.input) ==> ReadsBack(t, op.input, op.rows) }

  /** What the run did that the tables do not say: the declaration each version was pushed with, and
      the tags and summaries edited since the latest version was pushed. */
  datatype History = History(pushed: map<(nat, string), Meta>, tags: map<nat, string>, summaries: map<nat, string>)

  function Note(h: History, t: Tables, op: Op): History {
    match op
    case Push(input, rows) =>
      if Duplicate(t, input) then h
      else
        var id := PushId(t, input);
        var h' := h.(pushed := h.pushed[(id, input.meta.version) := input.meta]);
        if Latest(rows, "") != input.meta.version then h'
        else h'.(tags := h.tags - {id}, summaries := h.summaries - {id})
    case Edit(r, tags, summary) =>
      (match Find(t, r)
       case None => h
       case Some(k) =>
         var id := t.assets[k].id;
         h.(tags := if tags.Some? then h.tags[id := tags.value] else h.tags,
            summaries := if summary.Some? then h.summaries[id := summary.value] else h.summaries))
    case _ => h
  }

  function Run(ops: seq<Op>): (Tables, History) {
    if ops == [] then (EMPTY, History(map[], map[], map[]))
    else
      var n := |ops| - 1;
      var (t, h) := Run(ops[..n]);
      (Apply(t, ops[n]).0, Note(h, t, ops[n]))
  }

  predicate LegalRun(ops: seq<Op>) {
    ops != [] ==> LegalRun(ops[..|ops| - 1]) && Legal(Run(ops[..|ops| - 1]).0, ops[|ops| - 1])
  }

  // ----- what every run keeps -----

  /** The asset shows what its latest version declared, but for edits made since. */
  predicate ShowsLatest(a: Asset, h: History) {
    (a.id, a.latest) in h.pushed &&
    var m := h.pushed[(a.id, a.latest)];
    a.license == m.license && a.minIsann == m.minIsann &&
    a.tags == (if a.id in h.tags then h.tags[a.id] else Join(m.tags, ",")) &&
    a.summary == (if a.id in h.summaries then h.summaries[a.id] else m.summary)
  }

  /** Some version exceeds all others, or there are at most two. */
  predicate MetadataSettled(versions: set<string>) { HasLatest(versions) || |versions| <= 2 }

  predicate AssetSound(t: Tables, h: History, a: Asset) {
    a.id < t.nextAsset && a.latest in VersionsOf(t, a.id) &&
    (HasLatest(VersionsOf(t, a.id)) ==> IsLatest(a.latest, VersionsOf(t, a.id))) &&
    (MetadataSettled(VersionsOf(t, a.id)) ==> ShowsLatest(a, h))
  }

  /** Asset ids are unique. */
  predicate IdsUnique(t: Tables) {
    forall j, k :: j in t.assets && k in t.assets && t.assets[j].id == t.assets[k].id ==> j == k
  }

  predicate HasAsset(t: Tables, id: nat) { exists k <- t.assets.Keys :: t.assets[k].id == id }

  /** No version row outlives its asset, and every row's push is on record. */
  predicate RowsOwned(t: Tables, h: History) {
    forall v <- t.versions.Keys :: HasAsset(t, v.0) && v in h.pushed
  }

  /** Author ids are unique, and asset rows only mention ids that were handed out. */
  predicate AuthorsSound(t: Tables) {
    (forall e <- t.authors.Keys :: t.authors[e] < t.nextAuthor) &&
    (forall d, e :: d in t.authors && e in t.authors && t.authors[d] == t.authors[e] ==> d == e) &&
    forall k <- t.assets.Keys :: k.authorId < t.nextAuthor
  }

  predicate Sound(t: Tables, h: History) {
    AuthorsSound(t) && IdsUnique(t) && RowsOwned(t, h) && forall k <- t.assets.Keys :: AssetSound(t, h, t.assets[k])
  }

  // ----- preservation -----

  lemma AuthorKeepsSound(t: Tables, h: History, eoa: string)
    requires Sound(t, h)
    ensures Sound(WithAuthor(t, eoa), h)
  {
    hide HasLatest, MetadataSettled, IsLatest, ShowsLatest, ToLower, VersionsOf;
    var t' := WithAuthor(t, eoa);
    forall k | k in t'.assets.Keys ensures AssetSound(t', h, t'.assets[k]) {
      assert AssetSound(t, h, t.assets[k]);
      AuthorKeepsVersions(t, eoa, t.assets[k].id);
    }
    forall v | v in t'.versions.Keys ensures HasAsset(t', v.0) {
      var k :| k in t.assets.Keys && t.assets[k].id == v.0;
      assert k in t'.assets.Keys;
    }
  }

  lemma FreshIdHasNoVersions(t: Tables, h: History, id: nat)
    requires Sound(t, h) && id >= t.nextAsset
    ensures VersionsOf(t, id) == {}
  {
    forall v | v in t.versions.Keys ensures v.0 != id {
      var k :| k in t.assets.Keys && t.assets[k].id == v.0;
      assert AssetSound(t, h, t.assets[k]);
    }
  }

  lemma PutKeepsSound(t: Tables, h: History, input: PushInput, rows: seq<string>)
    requires Sound(t, h) && (!Duplicate(t, input) ==> ReadsBack(t, input, rows))
    ensures Sound(Put(t, input, rows).0, Note(h, t, Push(input, rows)))
  {
    var t1, key, id, v := WithAuthor(t, input.author), PushKey(t, input), PushId(t, input), input.meta.version;
    AuthorKeepsSound(t, h, input.author);
    FreshIdHasNoVersions(t1, h, t1.nextAsset);
    if Duplicate(t, input) {
      assert (id, v) in t1.versions ==> v in VersionsOf(t1, id);
      assert key in t1.assets;
    } else {
      var t', h' := Put(t, input, rows).0, Note(h, t, Push(input, rows));
      PutKeepsOthers(t, t1, h, input, rows);
      PutKeepsPushed(t, t1, h, input, rows);
    }
  }

  lemma PutVersions(t: Tables, input: PushInput, rows: seq<string>, i: nat)
    requires !Duplicate(t, input)
    ensures VersionsOf(Put(t, input, rows).0, i)
         == VersionsOf(WithAuthor(t, input.author), i) + (if i == PushId(t, input) then {input.meta.version} else {})
  {
    var t', t1 := Put(t, input, rows).0, WithAuthor(t, input.author);
    var id, v := PushId(t, input), input.meta.version;
    assert t'.versions.Keys == t1.versions.Keys + {(id, v)};
    forall w ensures w in VersionsOf(t', i) <==> w in VersionsOf(t1, i) + (if i == id then {v} else {}) {
      assert w in VersionsOf(t', i) <==> (i, w) in t'.versions.Keys;
      assert w in VersionsOf(t1, i) <==> (i, w) in t1.versions.Keys;
    }
  }

  lemma PutIdsAndAuthors(t: Tables, t1: Tables, h: History, input: PushInput, rows: seq<string>)
    requires t1 == WithAuthor(t, input.author) && Sound(t1, h) && !Duplicate(t, input)
    ensures IdsUnique(Put(t, input, rows).0) && AuthorsSound(Put(t, input, rows).0)
  {
    hide Refreshed, Join, ToLower, AssetSound;
    var t' := Put(t, input, rows).0;
    var key, id := PushKey(t, input), PushId(t, input);
    assert t'.assets[key].id == id by { RefreshKeepsId(WithAsset(t, input).assets[key], input.meta, rows); }
    forall j, k | j in t'.assets && k in t'.assets && t'.assets[j].id == t'.assets[k].id ensures j == k {
      if j != key { IdInRange(t1, h, j); }
      if k != key { IdInRange(t1, h, k); }
    }
  }

  lemma RefreshKeepsId(a: Asset, m: Meta, rows: seq<string>)
    ensures Refreshed(a, m, rows).id == a.id
  {
  }

  lemma IdInRange(t: Tables, h: History, k: AssetKey)
    requires Sound(t, h) && k in t.assets
    ensures t.assets[k].id < t.nextAsset
  {
    assert AssetSound(t, h, t.assets[k]);
  }

  lemma PutRowsOwned(t: Tables, t1: Tables, h: History, input: PushInput, rows: seq<string>)
    requires t1 == WithAuthor(t, input.author) && Sound(t1, h) && !Duplicate(t, input)
    ensures RowsOwned(Put(t, input, rows).0, Note(h, t, Push(input, rows)))
  {
    hide Refreshed, Join, ToLower, AssetSound, Latest;
    var t', h' := Put(t, input, rows).0, Note(h, t, Push(input, rows));
    var key, id := PushKey(t, input), PushId(t, input);
    assert t'.assets[key].id == id by { RefreshKeepsId(WithAsset(t, input).assets[key], input.meta, rows); }
    forall w | w in t'.versions.Keys ensures HasAsset(t', w.0) && w in h'.pushed {
      if w in t1.versions {
        var k :| k in t1.assets.Keys && t1.assets[k].id == w.0;
        assert k in t'.assets.Keys && t'.assets[k].id == w.0;
      } else {
        assert key in t'.assets.Keys;
      }
    }
  }

  lemma PutKeepsOther(t: Tables, t1: Tables, h: History, input: PushInput, rows: seq<string>, k: AssetKey)
    requires t1 == WithAuthor(t, input.author) && Sound(t1, h) && !Duplicate(t, input)
    requires k in t1.assets && k != PushKey(t, input)
    ensures var t', h' := Put(t, input, rows).0, Note(h, t, Push(input, rows));
      k in t'.assets && t'.assets[k] == t1.assets[k] && AssetSound(t', h', t'.assets[k])
  {
    hide Refreshed, Join, ToLower, Latest, HasLatest, MetadataSettled, IsLatest, VersionsOf;
    var a, key, id := t1.assets[k], PushKey(t, input), PushId(t, input);
    assert AssetSound(t1, h, a);
    assert a.id != id;
    PutVersions(t, input, rows, a.id);
    assert VersionsOf(Put(t, input, rows).0, a.id) == VersionsOf(t1, a.id);
  }

  lemma PutKeepsOthers(t: Tables, t1: Tables, h: History, input: PushInput, rows: seq<string>)
    requires t1 == WithAuthor(t, input.author) && Sound(t1, h) && !Duplicate(t, input)
    ensures var t', h' := Put(t, input, rows).0, Note(h, t, Push(input, rows));
      AuthorsSound(t') && IdsUnique(t') && RowsOwned(t', h') &&
      forall k <- t'.assets.Keys :: k != PushKey(t, input) ==> AssetSound(t', h', t'.assets[k])
  {
    PutIdsAndAuthors(t, t1, h, input, rows);
    PutRowsOwned(t, t1, h, input, rows);
    var t', h' := Put(t, input, rows).0, Note(h, t, Push(input, rows));
    forall k | k in t'.assets.Keys && k != PushKey(t, input) ensures AssetSound(t', h', t'.assets[k]) {
      hide *;
      PutKeepsOther(t, t1, h, input, rows, k) by { OtherKeyWasThere(t, input, rows, k); }
    }
  }

  lemma OtherKeyWasThere(t: Tables, input: PushInput, rows: seq<string>, k: AssetKey)
    requires k in Put(t, input, rows).0.assets && k != PushKey(t, input)
    ensures k in WithAuthor(t, input.author).assets
  {
  }

  /** The row `refreshLatest` writes is sound if the row before showed the version that stays latest. */
  lemma RefreshedSound(t: Tables, h: History, a: Asset, m: Meta, rows: seq<string>)
    requires a.id < t.nextAsset && m.version in VersionsOf(t, a.id) && Enumerates(rows, VersionsOf(t, a.id))
    requires (a.id, m.version) in h.pushed && h.pushed[(a.id, m.version)] == m
    requires Latest(rows, "") == m.version ==> a.id !in h.tags && a.id !in h.summaries
    requires MetadataSettled(VersionsOf(t, a.id)) && Latest(rows, "") != m.version ==>
               a.latest == Latest(rows, "") && ShowsLatest(a, h)
    ensures AssetSound(t, h, Refreshed(a, m, rows))
  {
    hide HasLatest, MetadataSettled, IsLatest, Latest, Join, VersionsOf;
    LatestMember(rows, "");
    assert m.version in rows;
    if HasLatest(VersionsOf(t, a.id)) { ScanFindsLatest(rows, VersionsOf(t, a.id)); }
  }

  /** The pushed asset's own row. */
  lemma PutKeepsPushed(t: Tables, t1: Tables, h: History, input: PushInput, rows: seq<string>)
    requires t1 == WithAuthor(t, input.author) && Sound(t1, h) && !Duplicate(t, input) && ReadsBack(t, input, rows)
    ensures var t', h' := Put(t, input, rows).0, Note(h, t, Push(input, rows));
      AssetSound(t', h', t'.assets[PushKey(t, input)])
  {
    hide Join, ToLower, HasLatest, MetadataSettled, IsLatest, Latest, ShowsLatest, VersionsOf, Enumerates, AssetSound;
    hide Refreshed;
    var t', h' := Put(t, input, rows).0, Note(h, t, Push(input, rows));
    var t2, key, id, v := WithAsset(t, input), PushKey(t, input), PushId(t, input), input.meta.version;
    var a, after := t2.assets[key], VersionsOf(t', id);
    PutVersions(t, input, rows, id);
    AuthorKeepsVersions(t, input.author, id);
    PushIdInRange(t, t1, h, input);
    if MetadataSettled(after) && Latest(rows, "") != v {
      if HasLatest(after) { ScanFindsLatest(rows, after); }
      ScanPicks(rows, after, v);
      NewVersion(t, t1, input);
      OldLatestStays(t1, h, id, key, v, Latest(rows, ""), after);
      NoteShows(h, h', a, id, v, input.meta);
    }
    RefreshedSound(t', h', a, input.meta, rows);
  }

  lemma AuthorKeepsVersions(t: Tables, eoa: string, id: nat)
    ensures VersionsOf(WithAuthor(t, eoa), id) == VersionsOf(t, id)
  {
  }

  lemma PushIdInRange(t: Tables, t1: Tables, h: History, input: PushInput)
    requires t1 == WithAuthor(t, input.author) && Sound(t1, h)
    ensures PushId(t, input) < WithAsset(t, input).nextAsset
  {
    var key := PushKey(t, input);
    if key in t1.assets { IdInRange(t1, h, key); }
  }

  lemma NoteShows(h: History, h': History, a: Asset, id: nat, v: string, m: Meta)
    requires h' == h.(pushed := h.pushed[(id, v) := m]) && (a.id, a.latest) != (id, v) && ShowsLatest(a, h)
    ensures ShowsLatest(a, h')
  {
  }

  lemma ScanPicks(rows: seq<string>, versions: set<string>, v: string)
    requires Enumerates(rows, versions) && v in versions
    ensures Latest(rows, "") in versions
  {
    assert v in rows;
    LatestMember(rows, "");
  }

  lemma NewVersion(t: Tables, t1: Tables, input: PushInput)
    requires t1 == WithAuthor(t, input.author) && !Duplicate(t, input)
    ensures input.meta.version !in VersionsOf(t1, PushId(t, input))
  {
    hide Join, ToLower;
  }

  /** A push that is not the new latest leaves the old latest in place. */
  lemma OldLatestStays(t1: Tables, h: History, id: nat, key: AssetKey, v: string, latest: string, after: set<string>)
    requires Sound(t1, h) && v !in VersionsOf(t1, id) && after == VersionsOf(t1, id) + {v}
    requires MetadataSettled(after) && (HasLatest(after) ==> IsLatest(latest, after))
    requires latest in after && latest != v
    requires if key in t1.assets then t1.assets[key].id == id else id == t1.nextAsset
    ensures key in t1.assets && t1.assets[key].latest == latest && ShowsLatest(t1.assets[key], h)
  {
    KnownAsset(t1, h, id, key, latest);
    hide VersionsOf, ShowsLatest, Sound, HasLatest, IsLatest;
    PickStays(VersionsOf(t1, id), v, latest, t1.assets[key].latest);
  }

  lemma KnownAsset(t: Tables, h: History, id: nat, key: AssetKey, version: string)
    requires Sound(t, h) && version in VersionsOf(t, id)
    requires if key in t.assets then t.assets[key].id == id else id == t.nextAsset
    ensures key in t.assets && t.assets[key].id == id && AssetSound(t, h, t.assets[key])
  {
    FreshIdHasNoVersions(t, h, t.nextAsset);
    assert key in t.assets.Keys;
  }

  /** What is picked with one version more is what was picked before, unless it is the new one. */
  lemma PickStays(before: set<string>, v: string, now: string, old_: string)
    requires v !in before && now in before && old_ in before && MetadataSettled(before + {v})
    requires HasLatest(before + {v}) ==> IsLatest(now, before + {v})
    requires HasLatest(before) ==> IsLatest(old_, before)
    ensures now == old_ && MetadataSettled(before)
  {
    hide HasLatest, IsLatest;
    if HasLatest(before + {v}) {
      LatestOfFewer(before, v, now);
      LatestUnique(now, old_, before);
    } else {
      assert |before + {v}| == |before| + 1;
      OnlyOne(before, now, old_);
    }
  }

  lemma OnlyOne(versions: set<string>, a: string, b: string)
    requires |versions| <= 1 && a in versions && b in versions
    ensures a == b
  {
    var rest := versions - {a};
    assert versions == {a} + rest;
    assert rest == {};
  }

  /** The histories agree but for the edits of one asset. */
  predicate OnlyDiffersAt(h: History, h': History, id: nat) {
    h'.pushed == h.pushed && h'.tags - {id} == h.tags - {id} && h'.summaries - {id} == h.summaries - {id}
  }

  lemma OtherShows(h: History, h': History, id: nat, a: Asset)
    requires OnlyDiffersAt(h, h', id) && a.id != id
    ensures ShowsLatest(a, h) == ShowsLatest(a, h')
  {
    assert a.id in h.tags - {id} <==> a.id in h.tags;
    assert a.id in h'.tags - {id} <==> a.id in h'.tags;
    assert a.id in h.summaries - {id} <==> a.id in h.summaries;
    assert a.id in h'.summaries - {id} <==> a.id in h'.summaries;
    assert a.id in h.tags ==> (h.tags - {id})[a.id] == h.tags[a.id];
    assert a.id in h.summaries ==> (h.summaries - {id})[a.id] == h.summaries[a.id];
  }

  lemma UpdateKeepsOwners(t: Tables, h: History, k: AssetKey, a: Asset)
    requires Sound(t, h) && k in t.assets && a.id == t.assets[k].id
    ensures var t' := t.(assets := t.assets[k := a]); IdsUnique(t') && RowsOwned(t', h)
  {
    hide AssetSound;
    var t' := t.(assets := t.assets[k := a]);
    forall v | v in t'.versions.Keys ensures HasAsset(t', v.0) {
      var j :| j in t.assets.Keys && t.assets[j].id == v.0;
      assert j in t'.assets.Keys && t'.assets[j].id == v.0;
    }
  }

  /** Rewriting one asset row, its id and latest version unchanged, keeps everything sound if the row is. */
  lemma UpdateKeepsSound(t: Tables, h: History, h': History, k: AssetKey, a: Asset)
    requires Sound(t, h) && k in t.assets && a.id == t.assets[k].id && AssetSound(t, h', a)
    requires OnlyDiffersAt(h, h', a.id)
    ensures Sound(t.(assets := t.assets[k := a]), h')
  {
    hide HasLatest, MetadataSettled, IsLatest, ShowsLatest;
    var t' := t.(assets := t.assets[k := a]);
    assert forall id :: VersionsOf(t', id) == VersionsOf(t, id);
    UpdateKeepsOwners(t, h, k, a);
    forall j | j in t'.assets.Keys ensures AssetSound(t', h', t'.assets[j]) {
      if j != k {
        assert AssetSound(t, h, t.assets[j]) && t.assets[j].id != a.id;
        OtherShows(h, h', a.id, t.assets[j]);
      }
    }
  }

  lemma DeleteVersions(t: Tables, r: Ref, k: AssetKey, id: nat)
    requires Find(t, r) == Some(k) && id != t.assets[k].id
    ensures VersionsOf(DeleteAsset(t, r).0, id) == VersionsOf(t, id)
  {
    hide ToLower;
    var t' := DeleteAsset(t, r).0;
    forall w ensures w in VersionsOf(t', id) <==> w in VersionsOf(t, id) {
      assert w in VersionsOf(t', id) <==> (id, w) in t'.versions.Keys;
      assert w in VersionsOf(t, id) <==> (id, w) in t.versions.Keys;
    }
  }

  lemma DeleteKeepsOwners(t: Tables, h: History, r: Ref, k: AssetKey)
    requires Sound(t, h) && Find(t, r) == Some(k)
    ensures RowsOwned(DeleteAsset(t, r).0, h) && IdsUnique(DeleteAsset(t, r).0) && AuthorsSound(DeleteAsset(t, r).0)
  {
    hide AssetSound, ToLower;
    var t' := DeleteAsset(t, r).0;
    forall v | v in t'.versions.Keys ensures HasAsset(t', v.0) {
      var j :| j in t.assets.Keys && t.assets[j].id == v.0;
      assert j in t'.assets.Keys;
    }
  }

  lemma DeleteKeepsAsset(t: Tables, h: History, r: Ref, k: AssetKey, j: AssetKey)
    requires Sound(t, h) && Find(t, r) == Some(k) && j in DeleteAsset(t, r).0.assets
    ensures AssetSound(DeleteAsset(t, r).0, h, DeleteAsset(t, r).0.assets[j])
  {
    hide HasLatest, MetadataSettled, IsLatest, ShowsLatest, VersionsOf, RowsOwned, AuthorsSound, Find;
    assert AssetSound(t, h, t.assets[j]);
    DeleteVersions(t, r, k, t.assets[j].id);
  }

  lemma DeleteKeepsSound(t: Tables, h: History, r: Ref)
    requires Sound(t, h)
    ensures Sound(DeleteAsset(t, r).0, h)
  {
    var found := Find(t, r);
    hide DeleteAsset, AssetSound, IdsUnique, RowsOwned, AuthorsSound;
    if found.Some? {
      var k, t' := found.value, DeleteAsset(t, r).0;
      DeleteKeepsOwners(t, h, r, k);
      forall j | j in t'.assets.Keys ensures AssetSound(t', h, t'.assets[j]) { DeleteKeepsAsset(t, h, r, k, j); }
    } else {
      NothingDeleted(t, r);
    }
  }

  lemma NothingDeleted(t: Tables, r: Ref)
    requires Find(t, r).None?
    ensures DeleteAsset(t, r).0 == t
  {
  }

  /** Every operation keeps the store sound. */
  lemma StepKeepsSound(t: Tables, h: History, op: Op)
    requires Sound(t, h) && Legal(t, op)
    ensures Sound(Apply(t, op).0, Note(h, t, op))
  {
    match op
    case Push(input, rows) => PutKeepsSound(t, h, input, rows);
    case Delete(r) => DeleteKeepsSound(t, h, r);
    case Visibility(r, v) => OtherKeepsSound(t, h, op, r);
    case Price(r, price, token) => OtherKeepsSound(t, h, op, r);
    case Edit(r, tags, summary) => OtherKeepsSound(t, h, op, r);
    case Download(r) => OtherKeepsSound(t, h, op, r);
  }

  lemma OtherKeepsSound(t: Tables, h: History, op: Op, r: Ref)
    requires Sound(t, h) && !op.Push? && !op.Delete? && op.r == r
    ensures Sound(Apply(t, op).0, Note(h, t, op))
  {
    var found := Find(t, r);
    if found.Some? {
      var k := found.value;
      OtherUpdate(t, h, op, k);
      UpdateKeepsSound(t, h, Note(h, t, op), k, Apply(t, op).0.assets[k]);
    }
  }

  /** The other operations rewrite one asset row, and no more of it than they say. */
  lemma OtherUpdate(t: Tables, h: History, op: Op, k: AssetKey)
    requires Sound(t, h) && !op.Push? && !op.Delete? && Find(t, op.r) == Some(k)
    ensures k in Apply(t, op).0.assets
    ensures var a, h' := Apply(t, op).0.assets[k], Note(h, t, op);
      Apply(t, op).0 == t.(assets := t.assets[k := a]) &&
      a.id == t.assets[k].id && AssetSound(t, h', a) && OnlyDiffersAt(h, h', a.id)
  {
    hide Find, Sound;
    var a := t.assets[k];
    assert t.assets[k := a] == t.assets;
    assert AssetSound(t, h, a) by { RowIsSound(t, h, k); }
    if op.Edit? { EditUpdate(t, h, op, k); } else { PlainUpdate(t, h, op, k); }
  }

  lemma RowIsSound(t: Tables, h: History, k: AssetKey)
    requires Sound(t, h) && k in t.assets
    ensures AssetSound(t, h, t.assets[k])
  {
  }

  lemma PlainUpdate(t: Tables, h: History, op: Op, k: AssetKey)
    requires !op.Push? && !op.Delete? && !op.Edit? && Find(t, op.r) == Some(k) && AssetSound(t, h, t.assets[k])
    requires t.assets[k := t.assets[k]] == t.assets
    ensures k in Apply(t, op).0.assets && Note(h, t, op) == h
    ensures var a := Apply(t, op).0.assets[k];
      Apply(t, op).0 == t.(assets := t.assets[k := a]) && a.id == t.assets[k].id && AssetSound(t, h, a)
  {
    hide HasLatest, MetadataSettled, IsLatest, Join, VersionsOf, Find;
  }

  lemma EditUpdate(t: Tables, h: History, op: Op, k: AssetKey)
    requires op.Edit? && Find(t, op.r) == Some(k) && AssetSound(t, h, t.assets[k])
    requires t.assets[k := t.assets[k]] == t.assets
    ensures k in Apply(t, op).0.assets
    ensures var a, h' := Apply(t, op).0.assets[k], Note(h, t, op);
      Apply(t, op).0 == t.(assets := t.assets[k := a]) &&
      a.id == t.assets[k].id && AssetSound(t, h', a) && OnlyDiffersAt(h, h', a.id)
  {
    hide HasLatest, MetadataSettled, IsLatest, Join, VersionsOf, Find;
  }

  /** Over every run: each asset's latest version is stored, and while some version exceeds all others it
      is that one; then, and while there are at most two versions, license, minimum CLI version, tags and
      summary are those the latest version was pushed with, but for later edits of tags and summary; and
      no version outlives its asset. */
  lemma {:induction false} RunIsSound(ops: seq<Op>)
    requires LegalRun(ops)
    ensures Sound(Run(ops).0, Run(ops).1)
  {
    if ops != [] {
      var n := |ops| - 1;
      RunIsSound(ops[..n]);
      StepKeepsSound(Run(ops[..n]).0, Run(ops[..n]).1, ops[n]);
    }
  }

  /** Listing heads with the latest version whenever one version exceeds all others. */
  lemma LatestHeadsList(t: Tables, h: History, k: AssetKey, list: seq<Version>)
    requires Sound(t, h) && k in t.assets && HasMaximum(VersionsOf(t, t.assets[k].id))
    requires Enumerates(Names(list), VersionsOf(t, t.assets[k].id)) && NoInversion(list)
    ensures list != [] && list[0].version == t.assets[k].latest
  {
    var a := t.assets[k];
    var versions := VersionsOf(t, a.id);
    assert AssetSound(t, h, a);
    var m :| m in versions && IsMaximum(m, versions);
    MaximumHeads(list, versions, m);
    LatestUnique(m, a.latest, versions);
  }

  // ----- immutability -----

  /** The asset with this id was deleted; ids are not handed out twice. */
  predicate Gone(t: Tables, id: nat) { id < t.nextAsset && !HasAsset(t, id) }

  /** Every row is still there, byte for byte, or its asset is gone. */
  predicate RowsKept(rows: map<(nat, string), Row>, t: Tables) {
    forall v <- rows.Keys :: (v in t.versions && t.versions[v] == rows[v]) || Gone(t, v.0)
  }

  /** An asset that exists afterwards existed before with the same id, or got a new id. */
  lemma StepKeepsIds(t: Tables, op: Op, k: AssetKey)
    requires k in Apply(t, op).0.assets
    ensures Apply(t, op).0.nextAsset >= t.nextAsset
    ensures var id := Apply(t, op).0.assets[k].id;
      if k in t.assets then id == t.assets[k].id else id == t.nextAsset
  {
    hide Join, ToLower, Latest;
  }

  lemma StepKeepsCounter(t: Tables, op: Op)
    ensures Apply(t, op).0.nextAsset >= t.nextAsset
  {
    hide Join, ToLower, Latest, Refreshed;
  }

  lemma StepKeepsGone(t: Tables, h: History, op: Op, id: nat)
    requires Sound(t, h) && Gone(t, id)
    ensures Gone(Apply(t, op).0, id)
  {
    hide Apply;
    StepKeepsCounter(t, op);
    var t' := Apply(t, op).0;
    forall k | k in t'.assets.Keys ensures t'.assets[k].id != id {
      StepKeepsIds(t, op, k);
    }
  }

  lemma StepKeepsRow(t: Tables, h: History, op: Op, v: (nat, string))
    requires Sound(t, h) && v in t.versions
    ensures var t' := Apply(t, op).0;
      (v in t'.versions && t'.versions[v] == t.versions[v]) || Gone(t', v.0)
  {
    hide Sound, Put, DeleteAsset;
    match op
    case Push(input, rows) => PutKeepsRow(t, input, rows, v);
    case Delete(r) => DeleteKeepsRow(t, h, r, v);
    case _ =>
  }

  lemma PutKeepsRow(t: Tables, input: PushInput, rows: seq<string>, v: (nat, string))
    requires v in t.versions
    ensures var t' := Put(t, input, rows).0; v in t'.versions && t'.versions[v] == t.versions[v]
  {
    assert WithAsset(t, input).versions == t.versions;
  }

  lemma DeleteKeepsRow(t: Tables, h: History, r: Ref, v: (nat, string))
    requires Sound(t, h) && v in t.versions
    ensures var t' := DeleteAsset(t, r).0;
      (v in t'.versions && t'.versions[v] == t.versions[v]) || Gone(t', v.0)
  {
    var t' := DeleteAsset(t, r).0;
    if v !in t'.versions {
      var k := Find(t, r).value;
      IdInRange(t, h, k);
      forall j | j in t'.assets.Keys ensures t'.assets[j].id != v.0 { assert j != k; }
    }
  }

  /** A published version never changes until its asset is deleted, whatever is done in between. */
  lemma {:induction false} VersionsImmutable(ops: seq<Op>, more: seq<Op>)
    requires LegalRun(ops + more)
    ensures LegalRun(ops) && RowsKept(Run(ops).0.versions, Run(ops + more).0)
    decreases more
  {
    if more == [] {
      assert ops + more == ops;
    } else {
      var n := |more| - 1;
      var all, before := ops + more, ops + more[..n];
      assert all[..|all| - 1] == before && all[|all| - 1] == more[n];
      VersionsImmutable(ops, more[..n]);
      RunIsSound(before);
      var (t, h) := Run(before);
      var rows := Run(ops).0.versions;
      forall v | v in rows.Keys
        ensures (v in Run(all).0.versions && Run(all).0.versions[v] == rows[v]) || Gone(Run(all).0, v.0)
      {
        if Gone(t, v.0) { StepKeepsGone(t, h, more[n], v.0); } else { StepKeepsRow(t, h, more[n], v); }
      }
    }
  }

  /** A successful push can be read back by its version, and a repeated one changes nothing. */
  lemma PushReadsBack(t: Tables, h: History, input: PushInput, rows: seq<string>)
    requires Sound(t, h) && input.meta.version != ""
    ensures var t' := Put(t, input, rows).0;
      var r := Ref(input.typ, input.author, input.meta.name);
      if Duplicate(t, input) then t' == t
      else GetRecipe(t', r, input.meta.version).Some? &&
           GetRecipe(t', r, input.meta.version).value.body == input.body &&
           GetRecipe(t', r, input.meta.version).value.sha256 == input.sha256
  {
    hide IsLatest, HasLatest, ShowsLatest, Refreshed, Join;
    var id := PushId(t, input);
    RefreshKeepsId(WithAsset(t, input).assets[PushKey(t, input)], input.meta, rows);
    if Duplicate(t, input) {
      assert input.meta.version in VersionsOf(t, id);
      FreshIdHasNoVersions(t, h, t.nextAsset);
    }
  }

  /** The asset row an operation is about. */
  function Target(t: Tables, op: Op): Option<AssetKey> {
    if op.Push? then Some(PushKey(t, op.input)) else Find(t, op.r)
  }

  /** Every operation leaves all other assets alone, and their versions too. */
  lemma OthersUntouched(t: Tables, h: History, op: Op, k: AssetKey)
    requires Sound(t, h) && k in t.assets && Target(t, op) != Some(k)
    ensures var t' := Apply(t, op).0;
      k in t'.assets && t'.assets[k] == t.assets[k] &&
      forall v <- t.versions.Keys :: v.0 == t.assets[k].id ==> v in t'.versions && t'.versions[v] == t.versions[v]
  {
    match op
    case Push(input, rows) =>
      hide Sound, Put;
      forall v | v in t.versions.Keys
        ensures v in Put(t, input, rows).0.versions && Put(t, input, rows).0.versions[v] == t.versions[v]
      {
        PutKeepsRow(t, input, rows, v);
      }
      PutLeavesAsset(t, input, rows, k);
    case _ => hide Sound, Join, ToLower; assert IdsUnique(t) by { SoundIdsUnique(t, h); }
  }

  lemma SoundIdsUnique(t: Tables, h: History)
    requires Sound(t, h)
    ensures IdsUnique(t)
  {
  }

  lemma PutLeavesAsset(t: Tables, input: PushInput, rows: seq<string>, k: AssetKey)
    requires k in t.assets && k != PushKey(t, input)
    ensures k in Put(t, input, rows).0.assets && Put(t, input, rows).0.assets[k] == t.assets[k]
  {
    hide Refreshed, Join, ToLower;
  }

  /** What the operation reports when the asset does not exist: a delete or a download passes over it. */
  function MissingOutcome(op: Op): Outcome
    requires !op.Push?
  {
    if op.Delete? || op.Download? then Changed(false) else NotFound
  }

  /** The reported change is the actual change, and a setting repeated reports none. */
  lemma ChangeReported(t: Tables, op: Op)
    requires !op.Push?
    ensures var (t', o) := Apply(t, op); o.Changed? ==> (o.changed <==> t' != t)
    ensures Find(t, op.r).None? ==> Apply(t, op) == (t, MissingOutcome(op))
    ensures Find(t, op.r).Some? ==> Apply(t, op).1.Changed?
    ensures op.Visibility? || op.Price? || op.Edit? || op.Delete? ==>
      Apply(Apply(t, op).0, op) ==
        (Apply(t, op).0, if Find(t, op.r).None? then MissingOutcome(op) else Changed(false))
  {
    hide ToLower;
  }

  // ----- the store as the source runs it -----

  class SqlStore {
    var authors: map<string, nat>
    var assets: map<AssetKey, Asset>
    var versions: map<(nat, string), Row>
    var nextAuthor: nat
    var nextAsset: nat

    ghost function Now(): Tables
      reads this
    {
      Tables(authors, assets, versions, nextAuthor, nextAsset)
    }

    constructor ()
      ensures Now() == EMPTY
    {
      authors, assets, versions, nextAuthor, nextAsset := map[], map[], map[], 0, 0;
    }

    method AuthorID(eoa: string) returns (id: nat)
      modifies this`authors, this`nextAuthor
      ensures Now() == WithAuthor(old(Now()), eoa)
      ensures ToLower(eoa) in authors && id == authors[ToLower(eoa)]
    {
      var low := ToLower(eoa);
      if low in authors { return authors[low]; }
      id := nextAuthor;
      authors, nextAuthor := authors[low := id], nextAuthor + 1;
    }

    method Lookup(r: Ref) returns (k: Option<AssetKey>)
      ensures k == Find(Now(), r)
    {
      var eoa := ToLower(r.eoa);
      if eoa !in authors { return None; }
      var key := AssetKey(r.typ, authors[eoa], r.name);
      return if key in assets then Some(key) else None;
    }

    /** Reads the version rows of an asset in some order and keeps the latest. */
    method RefreshLatest(key: AssetKey, m: Meta) returns (ghost rows: seq<string>)
      requires key in assets
      modifies this`assets
      ensures Enumerates(rows, VersionsOf(Now(), old(assets)[key].id))
      ensures assets == old(assets)[key := Refreshed(old(assets)[key], m, rows)]
    {
      var id := assets[key].id;
      var todo: set<string> := set k | k in versions.Keys && k.0 == id :: k.1;
      ghost var all := todo;
      var latest := "";
      rows := [];
      while todo != {}
        invariant todo <= all && Enumerates(rows, all - todo)
        invariant latest == Latest(rows, "") && assets == old(assets)
        decreases todo
      {
        var v :| v in todo;
        LatestSnoc(rows, v, "");
        if latest == "" || SemverLess(latest, v) { latest := v; }
        todo := todo - {v};
        rows := rows + [v];
      }
      assert all - todo == all;
      var a := assets[key];
      if latest == m.version {
        a := a.(latest := latest, summary := m.summary, license := m.license, minIsann := m.minIsann,
                tags := Join(m.tags, ","));
      } else {
        a := a.(latest := latest);
      }
      assets := assets[key := a];
    }

    method PutAsset(input: PushInput) returns (r: Outcome, ghost rows: seq<string>)
      modifies this
      ensures !Duplicate(old(Now()), input) ==> ReadsBack(old(Now()), input, rows)
      ensures (Now(), r) == Put(old(Now()), input, rows)
    {
      ghost var was := Now();
      var author := AuthorID(input.author);
      var m, key := input.meta, AssetKey(input.typ, author, input.meta.name);
      if key !in assets {
        var tags := Join(m.tags, ",");
        assets := assets[key := Asset(nextAsset, m.version, m.summary, m.license, m.minIsann, tags,
                                      "private", "0", None, 0)];
        nextAsset := nextAsset + 1;
      }
      assert Now() == WithAsset(was, input);
      var id := assets[key].id;
      if (id, m.version) in versions { return VersionExists, []; }
      versions := versions[(id, m.version) := Row(input.sha256, input.body)];
      AddedVersion(was, Now(), input);
      rows := RefreshLatest(key, m);
      r := Pushed(assets[key]);
    }

    method SetVisibilityOf(r: Ref, visibility: string) returns (o: Outcome)
      modifies this`assets
      ensures (Now(), o) == SetVisibility(old(Now()), r, visibility)
    {
      var k := Lookup(r);
      if k.None? { return NotFound; }
      var a := assets[k.value];
      if a.visibility == visibility { return Changed(false); }
      assets := assets[k.value := a.(visibility := visibility)];
      return Changed(true);
    }

    method SetPriceOf(r: Ref, price: string, token: Option<string>) returns (o: Outcome)
      modifies this`assets
      ensures (Now(), o) == SetPrice(old(Now()), r, price, token)
    {
      var k := Lookup(r);
      if k.None? { return NotFound; }
      var a := assets[k.value];
      if a.price == price && TokenText(a.token) == TokenText(token) { return Changed(false); }
      assets := assets[k.value := a.(price := price, token := token)];
      return Changed(true);
    }

    method SetMetaOf(r: Ref, tags: Option<string>, summary: Option<string>) returns (o: Outcome)
      modifies this`assets
      ensures (Now(), o) == SetMeta(old(Now()), r, tags, summary)
    {
      var k := Lookup(r);
      if k.None? { return NotFound; }
      var a, changed := assets[k.value], false;
      if tags.Some? && tags.value != a.tags { a, changed := a.(tags := tags.value), true; }
      if summary.Some? && summary.value != a.summary { a, changed := a.(summary := summary.value), true; }
      if !changed { return Changed(false); }
      assets := assets[k.value := a];
      return Changed(true);
    }

    method Remove(r: Ref) returns (o: Outcome)
      modifies this`assets, this`versions
      ensures (Now(), o) == DeleteAsset(old(Now()), r)
    {
      var k := Lookup(r);
      if k.None? { return Changed(false); }
      var id := assets[k.value].id;
      versions := map v | v in versions && v.0 != id :: versions[v];
      assets := assets - {k.value};
      return Changed(true);
    }

    method CountDownload(r: Ref) returns (o: Outcome)
      modifies this`assets
      ensures (Now(), o) == IncrDownloads(old(Now()), r)
    {
      var k := Lookup(r);
      if k.None? { return Changed(false); }
      assets := assets[k.value := assets[k.value].(downloads := assets[k.value].downloads + 1)];
      return Changed(true);
    }

    /** `ListVersions`: the rows, read in some order and sorted in place. */
    method ListVersions(r: Ref) returns (list: seq<Version>)
      ensures NoInversion(list)
      ensures match Find(Now(), r)
              case None => list == []
              case Some(k) =>
                Enumerates(Names(list), VersionsOf(Now(), assets[k].id)) &&
                forall v <- list ::
                  (assets[k].id, v.version) in versions && versions[(assets[k].id, v.version)].sha256 == v.sha256
    {
      var k := Lookup(r);
      if k.None? { return []; }
      var id := assets[k.value].id;
      var todo: set<string> := set j | j in versions.Keys && j.0 == id :: j.1;
      ghost var all := todo;
      ghost var names: seq<string> := [];
      var read: seq<Version> := [];
      while todo != {}
        invariant todo <= all && Enumerates(names, all - todo)
        invariant names == Names(read)
        invariant forall v <- read :: (id, v.version) in versions && versions[(id, v.version)].sha256 == v.sha256
        decreases todo
      {
        var v :| v in todo;
        read := read + [Version(v, versions[(id, v)].sha256)];
        todo := todo - {v};
        names := names + [v];
      }
      assert all - todo == all;
      var table := new Version[|read|](i requires 0 <= i < |read| => read[i]);
      assert table[..] == read;
      SortVersionsDesc(table);
      list := table[..];
      SortEnumerates(read, VersionsOf(Now(), id));
      SortHasNoInversion(read);
    }
  }

  /** Inserting the version row adds it to the asset's versions. */
  lemma AddedVersion(t: Tables, t': Tables, input: PushInput)
    requires !Duplicate(t, input)
    requires t' == WithAsset(t, input).(versions :=
                     t.versions[(PushId(t, input), input.meta.version) := Row(input.sha256, input.body)])
    ensures VersionsOf(t', PushId(t, input)) == VersionsOf(t, PushId(t, input)) + {input.meta.version}
  {
    var id, v := PushId(t, input), input.meta.version;
    assert t'.versions.Keys == t.versions.Keys + {(id, v)};
    forall w ensures w in VersionsOf(t', id) <==> w in VersionsOf(t, id) + {v} {
      assert w in VersionsOf(t', id) <==> (id, w) in t'.versions.Keys;
      assert w in VersionsOf(t, id) <==> (id, w) in t.versions.Keys;
    }
  }
}
