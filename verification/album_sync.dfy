/** The album reconciler (main.go:238-304), as a planner: from the gateway's
    answers it computes the album writes the loop issues and the count it
    returns. It only ever adds assets to albums. */
module AlbumSync {
  import opened Types
  import opened Enumerations
  import Fetches
  import Gateway

  /** The gateway's answer to one "albums of this asset" request: the ids of
      the albums it lists, or None when the request failed. */
  type AlbumListing = Option<seq<AlbumId>>

  /** One batched request: add `assets` to `album`. */
  datatype AlbumWrite = AlbumWrite(album: AlbumId, assets: seq<AssetId>)

  /** The requests issued, in order, and the number of additions counted. */
  datatype SyncPlan = SyncPlan(writes: seq<AlbumWrite>, count: nat)

  /** Every album id listed by a successful request (`allAlbumIDs`). */
  function ReportedAlbums(listings: seq<AlbumListing>): (s: set<AlbumId>)
    ensures forall a :: a in s <==> exists i | 0 <= i < |listings| :: listings[i].Some? && a in listings[i].value
    decreases |listings|
  {
    if |listings| == 0 then {}
    else
      var rest := ReportedAlbums(listings[1..]);
      assert forall i | 1 <= i < |listings| :: listings[1..][i-1] == listings[i];
      match listings[0]
      case None => rest
      case Some(albums) => (set a | a in albums) + rest
  }

  /** The loop's view of membership: the asset has an entry and its entry
      lists the album. An asset whose request failed has no entry. */
  predicate InAlbum(members: map<AssetId, seq<AlbumId>>, asset: AssetId, album: AlbumId) {
    asset in members && album in members[asset]
  }

  /** The group assets the loop would add to `album`, in group order. */
  function MissingFrom(assets: seq<AssetId>, members: map<AssetId, seq<AlbumId>>, album: AlbumId): (batch: seq<AssetId>)
    ensures forall x :: x in batch <==> x in assets && !InAlbum(members, x, album)
    ensures |batch| <= |assets|
    decreases |assets|
  {
    if |assets| == 0 then []
    else
      var rest := MissingFrom(assets[1..], members, album);
      if InAlbum(members, assets[0], album) then rest else [assets[0]] + rest
  }

  /** Each group position whose asset is not in the album contributes one
      entry to the batch: an asset occurs in the batch as often as in the
      group, which fixes the batch size, and a group without repeats gives
      a batch without repeats. */
  lemma {:induction false} BatchOccurrences(assets: seq<AssetId>, members: map<AssetId, seq<AlbumId>>, album: AlbumId)
    ensures var batch := MissingFrom(assets, members, album);
      && (forall x :: multiset(batch)[x] == if InAlbum(members, x, album) then 0 else multiset(assets)[x])
      && (Distinct(assets) ==> Distinct(batch))
    decreases |assets|
  {
    if |assets| > 0 {
      var rest := MissingFrom(assets[1..], members, album);
      BatchOccurrences(assets[1..], members, album);
      assert assets == [assets[0]] + assets[1..];
      if !InAlbum(members, assets[0], album) && Distinct(assets) {
        assert assets[0] !in assets[1..];
        DistinctCons(assets[0], rest);
      }
    }
  }

  /** How many additions one album adds to the count: its batch size if the
      batch is written in preview mode or accepted by the gateway, else 0. */
  function Credited(batch: seq<AssetId>, dryRun: bool, response: Gateway.Response): nat {
    if |batch| == 0 then 0
    else if dryRun || Gateway.AddAccepted(response) then |batch|
    else 0
  }

  /** The album loop over the albums in `order`. A batch is written only when
      it is non-empty and not in preview mode; a rejected write is still
      issued and the loop goes on with the next album. */
  function Reconcile(
    order: seq<AlbumId>,
    assets: seq<AssetId>,
    members: map<AssetId, seq<AlbumId>>,
    dryRun: bool,
    addResponse: AlbumId -> Gateway.Response): (p: SyncPlan)
    ensures forall k | 0 <= k < |p.writes| ::
      && p.writes[k].album in order
      && p.writes[k].assets == MissingFrom(assets, members, p.writes[k].album)
      && |p.writes[k].assets| > 0
    ensures dryRun ==> p.writes == []
    ensures p.count == Sum(order, a => Credited(MissingFrom(assets, members, a), dryRun, addResponse(a)))
    decreases |order|
  {
    if |order| == 0 then SyncPlan([], 0)
    else
      var album := order[0];
      var batch := MissingFrom(assets, members, album);
      var rest := Reconcile(order[1..], assets, members, dryRun, addResponse);
      var writes := if |batch| > 0 && !dryRun then [AlbumWrite(album, batch)] + rest.writes else rest.writes;
      SyncPlan(writes, Credited(batch, dryRun, addResponse(album)) + rest.count)
  }

  /** Outside preview mode, every album of `order` with a non-empty batch is written. */
  lemma {:induction false} ReconcileCovers(
    order: seq<AlbumId>,
    assets: seq<AssetId>,
    members: map<AssetId, seq<AlbumId>>,
    addResponse: AlbumId -> Gateway.Response,
    a: AlbumId)
    requires a in order && |MissingFrom(assets, members, a)| > 0
    ensures a in WrittenAlbums(Reconcile(order, assets, members, false, addResponse).writes)
    decreases |order|
  {
    var p := Reconcile(order, assets, members, false, addResponse);
    var rest := Reconcile(order[1..], assets, members, false, addResponse);
    var batch := MissingFrom(assets, members, order[0]);
    if |batch| > 0 {
      assert p.writes == [AlbumWrite(order[0], batch)] + rest.writes;
      WrittenAlbumsCons(AlbumWrite(order[0], batch), rest.writes);
    } else {
      assert p.writes == rest.writes;
    }
    if order[0] != a {
      assert a in order[1..];
      ReconcileCovers(order[1..], assets, members, addResponse, a);
    }
  }

  /** The albums written, in request order. */
  function WrittenAlbums(writes: seq<AlbumWrite>): (albums: seq<AlbumId>)
    ensures |albums| == |writes|
    ensures forall k | 0 <= k < |writes| :: albums[k] == writes[k].album
  {
    seq(|writes|, k requires 0 <= k < |writes| => writes[k].album)
  }

  lemma WrittenAlbumsCons(w: AlbumWrite, rest: seq<AlbumWrite>)
    ensures WrittenAlbums([w] + rest) == [w.album] + WrittenAlbums(rest)
  {
    assert forall k | 1 <= k <= |rest| :: ([w] + rest)[k] == rest[k - 1];
  }

  /** When `order` has no repeats, no album is written twice. */
  lemma {:induction false} ReconcileWritesOnce(
    order: seq<AlbumId>,
    assets: seq<AssetId>,
    members: map<AssetId, seq<AlbumId>>,
    dryRun: bool,
    addResponse: AlbumId -> Gateway.Response)
    requires Distinct(order)
    ensures Distinct(WrittenAlbums(Reconcile(order, assets, members, dryRun, addResponse).writes))
    decreases |order|
  {
    if |order| > 0 {
      var p := Reconcile(order, assets, members, dryRun, addResponse);
      var rest := Reconcile(order[1..], assets, members, dryRun, addResponse);
      ReconcileWritesOnce(order[1..], assets, members, dryRun, addResponse);
      if p.writes != rest.writes {
        var tail := WrittenAlbums(rest.writes);
        assert order[0] !in tail by {
          assert order[0] !in order[1..];
          forall k | 0 <= k < |tail|
            ensures tail[k] != order[0]
          {
            assert tail[k] == rest.writes[k].album;
          }
        }
        var w := AlbumWrite(order[0], MissingFrom(assets, members, order[0]));
        assert p.writes == [w] + rest.writes;
        WrittenAlbumsCons(w, rest.writes);
        DistinctCons(order[0], tail);
      }
    }
  }

  /** The album request of each group asset answered, in group order, then
      the map the loop builds from the answers and the albums it names. */
  function Memberships(assets: seq<AssetId>, listings: seq<AlbumListing>): map<AssetId, seq<AlbumId>>
    requires |listings| == |assets|
  {
    Fetches.Collect(assets, listings)
  }

  /** The group assets missing from `album` according to the answers. */
  function Batch(assets: seq<AssetId>, listings: seq<AlbumListing>, album: AlbumId): seq<AssetId>
    requires |listings| == |assets|
  {
    MissingFrom(assets, Memberships(assets, listings), album)
  }

  /** What album `a` adds to the count of a live run: its batch size when
      the gateway accepts the write, nothing otherwise. */
  function AddedIfAccepted(
    assets: seq<AssetId>,
    listings: seq<AlbumListing>,
    addResponse: AlbumId -> Gateway.Response,
    a: AlbumId): nat
    requires |listings| == |assets|
  {
    if Gateway.AddAccepted(addResponse(a)) then |Batch(assets, listings, a)| else 0
  }

  /** The whole reconciler. `listings[i]` answers the request for
      `assets[i]`; `order` is the order in which the loop visits the album-id
      map; `addResponse` is the gateway's answer to each album write.
      Writes go only to reported albums, each carrying exactly the group
      assets not listed in that album (assets whose request failed
      included); preview mode writes nothing; otherwise every album with a
      non-empty batch gets exactly one write. */
  function SynchronizeAlbums(
    assets: seq<AssetId>,
    listings: seq<AlbumListing>,
    order: seq<AlbumId>,
    dryRun: bool,
    addResponse: AlbumId -> Gateway.Response): (p: SyncPlan)
    requires |listings| == |assets|
    requires IsEnumeration(order, ReportedAlbums(listings))
    ensures forall k | 0 <= k < |p.writes| ::
      && p.writes[k].album in ReportedAlbums(listings)
      && p.writes[k].assets == Batch(assets, listings, p.writes[k].album)
      && |p.writes[k].assets| > 0
    ensures dryRun ==> p.writes == []
    ensures !dryRun ==> forall a | a in ReportedAlbums(listings) && |Batch(assets, listings, a)| > 0 ::
      exists k | 0 <= k < |p.writes| :: p.writes[k] == AlbumWrite(a, Batch(assets, listings, a))
    ensures Distinct(WrittenAlbums(p.writes))
    ensures dryRun ==> p.count == Sum(order, a => |Batch(assets, listings, a)|)
    ensures !dryRun ==> (p.count ==
      Sum(order, a => AddedIfAccepted(assets, listings, addResponse, a)))
  {
    var members := Memberships(assets, listings);
    var p := Reconcile(order, assets, members, dryRun, addResponse);
    CreditedSum(order, assets, listings, dryRun, addResponse);
    ReconcileWritesOnce(order, assets, members, dryRun, addResponse);
    SynchronizeCovers(assets, listings, order, addResponse);
    p
  }

  /** Outside preview mode, the reconciler writes every reported album with
      a non-empty batch, with exactly that batch. */
  lemma SynchronizeCovers(
    assets: seq<AssetId>,
    listings: seq<AlbumListing>,
    order: seq<AlbumId>,
    addResponse: AlbumId -> Gateway.Response)
    requires |listings| == |assets|
    requires IsEnumeration(order, ReportedAlbums(listings))
    ensures var p := Reconcile(order, assets, Memberships(assets, listings), false, addResponse);
      forall a | a in ReportedAlbums(listings) && |Batch(assets, listings, a)| > 0 ::
        exists k | 0 <= k < |p.writes| :: p.writes[k] == AlbumWrite(a, Batch(assets, listings, a))
  {
    var members := Memberships(assets, listings);
    var p := Reconcile(order, assets, members, false, addResponse);
    forall a | a in ReportedAlbums(listings) && |Batch(assets, listings, a)| > 0
      ensures exists k | 0 <= k < |p.writes| :: p.writes[k] == AlbumWrite(a, Batch(assets, listings, a))
    {
      ReconcileCovers(order, assets, members, addResponse, a);
      var k :| 0 <= k < |p.writes| && WrittenAlbums(p.writes)[k] == a;
    }
  }

  /** The credited sum spelled out for each mode. */
  lemma {:induction false} CreditedSum(
    order: seq<AlbumId>,
    assets: seq<AssetId>,
    listings: seq<AlbumListing>,
    dryRun: bool,
    addResponse: AlbumId -> Gateway.Response)
    requires |listings| == |assets|
    ensures dryRun ==> (Sum(order, a => Credited(MissingFrom(assets, Memberships(assets, listings), a), dryRun, addResponse(a)))
      == Sum(order, a => |Batch(assets, listings, a)|))
    ensures !dryRun ==> (Sum(order, a => Credited(MissingFrom(assets, Memberships(assets, listings), a), dryRun, addResponse(a)))
      == Sum(order, a => AddedIfAccepted(assets, listings, addResponse, a)))
    decreases |order|
  {
    if |order| > 0 {
      CreditedSum(order[1..], assets, listings, dryRun, addResponse);
    }
  }

  /** The writes issued are exactly one per reported album with a non-empty
      batch, carrying that batch, and none in preview mode. */
  lemma WritesCharacterized(
    assets: seq<AssetId>,
    listings: seq<AlbumListing>,
    order: seq<AlbumId>,
    dryRun: bool,
    addResponse: AlbumId -> Gateway.Response,
    w: AlbumWrite)
    requires |listings| == |assets|
    requires IsEnumeration(order, ReportedAlbums(listings))
    ensures w in SynchronizeAlbums(assets, listings, order, dryRun, addResponse).writes <==>
      && !dryRun
      && w.album in ReportedAlbums(listings)
      && w.assets == Batch(assets, listings, w.album)
      && |w.assets| > 0
  {
    var p := SynchronizeAlbums(assets, listings, order, dryRun, addResponse);
    if w in p.writes {
      var k :| 0 <= k < |p.writes| && p.writes[k] == w;
    }
  }

  /** The order in which the album-id map is visited changes neither the
      returned count nor the set of writes issued. */
  lemma CountIgnoresOrder(
    assets: seq<AssetId>,
    listings: seq<AlbumListing>,
    order1: seq<AlbumId>,
    order2: seq<AlbumId>,
    dryRun: bool,
    addResponse: AlbumId -> Gateway.Response)
    requires |listings| == |assets|
    requires IsEnumeration(order1, ReportedAlbums(listings))
    requires IsEnumeration(order2, ReportedAlbums(listings))
    ensures SynchronizeAlbums(assets, listings, order1, dryRun, addResponse).count
         == SynchronizeAlbums(assets, listings, order2, dryRun, addResponse).count
    ensures forall w ::
      w in SynchronizeAlbums(assets, listings, order1, dryRun, addResponse).writes <==>
      w in SynchronizeAlbums(assets, listings, order2, dryRun, addResponse).writes
  {
    if dryRun {
      SumOrderIndependent(order1, order2, a => |Batch(assets, listings, a)|);
    } else {
      SumOrderIndependent(order1, order2,
        a => AddedIfAccepted(assets, listings, addResponse, a));
    }
    forall w
      ensures w in SynchronizeAlbums(assets, listings, order1, dryRun, addResponse).writes <==>
              w in SynchronizeAlbums(assets, listings, order2, dryRun, addResponse).writes
    {
      WritesCharacterized(assets, listings, order1, dryRun, addResponse, w);
      WritesCharacterized(assets, listings, order2, dryRun, addResponse, w);
    }
  }

  /** An asset whose album request failed is treated as a member of no album
      and so appears in the batch of every album. */
  lemma UnlistedAssetJoinsEveryBatch(assets: seq<AssetId>, listings: seq<AlbumListing>, x: AssetId, album: AlbumId)
    requires |listings| == |assets|
    requires x in assets
    requires forall i | 0 <= i < |assets| && assets[i] == x :: listings[i].None?
    ensures x in Batch(assets, listings, album)
  {
  }

  /** The gateway's answers to the writes do not change which writes are
      issued: a rejected write does not stop the remaining albums. */
  lemma {:induction false} WritesIgnoreResponses(
    order: seq<AlbumId>,
    assets: seq<AssetId>,
    members: map<AssetId, seq<AlbumId>>,
    dryRun: bool,
    response1: AlbumId -> Gateway.Response,
    response2: AlbumId -> Gateway.Response)
    ensures Reconcile(order, assets, members, dryRun, response1).writes
         == Reconcile(order, assets, members, dryRun, response2).writes
    decreases |order|
  {
    if |order| > 0 {
      WritesIgnoreResponses(order[1..], assets, members, dryRun, response1, response2);
    }
  }

  /** When every request succeeded and all assets list the same albums,
      no asset is missing from a reported album. */
  lemma NothingMissing(assets: seq<AssetId>, listings: seq<AlbumListing>, albums: set<AlbumId>, a: AlbumId)
    requires |listings| == |assets|
    requires forall i | 0 <= i < |listings| :: listings[i].Some?
    requires forall i, b | 0 <= i < |listings| && listings[i].Some? :: b in listings[i].value <==> b in albums
    requires a in ReportedAlbums(listings)
    ensures Batch(assets, listings, a) == []
  {
    var members := Memberships(assets, listings);
    var k :| 0 <= k < |listings| && listings[k].Some? && a in listings[k].value;
    assert a in albums;
    forall x | x in assets
      ensures InAlbum(members, x, a)
    {
      var i :| 0 <= i < |assets| && assets[i] == x;
      assert listings[i].Some?;
      assert x in members;
      var j :| 0 <= j < |assets| && assets[j] == x && listings[j] == Some(members[x]);
      assert a in listings[j].value;
    }
    var batch := Batch(assets, listings, a);
    if batch != [] {
      HeadIsElement(batch);
      assert false;
    }
  }

  /** When every request succeeded and all assets list the same albums, the
      group is already reconciled: nothing is written and the count is 0. */
  lemma AlreadySynchronized(
    assets: seq<AssetId>,
    listings: seq<AlbumListing>,
    order: seq<AlbumId>,
    dryRun: bool,
    addResponse: AlbumId -> Gateway.Response,
    albums: set<AlbumId>)
    requires |listings| == |assets|
    requires IsEnumeration(order, ReportedAlbums(listings))
    requires forall i | 0 <= i < |listings| :: listings[i].Some?
    requires forall i, a | 0 <= i < |listings| && listings[i].Some? :: a in listings[i].value <==> a in albums
    ensures SynchronizeAlbums(assets, listings, order, dryRun, addResponse) == SyncPlan([], 0)
  {
    var members := Memberships(assets, listings);
    forall a | a in order
      ensures MissingFrom(assets, members, a) == []
    {
      NothingMissing(assets, listings, albums, a);
    }
    NothingToReconcile(order, assets, members, dryRun, addResponse);
  }

  /** The album loop over albums from which no asset is missing does nothing. */
  lemma {:induction false} NothingToReconcile(
    order: seq<AlbumId>,
    assets: seq<AssetId>,
    members: map<AssetId, seq<AlbumId>>,
    dryRun: bool,
    addResponse: AlbumId -> Gateway.Response)
    requires forall a | a in order :: MissingFrom(assets, members, a) == []
    ensures Reconcile(order, assets, members, dryRun, addResponse) == SyncPlan([], 0)
    decreases |order|
  {
    if |order| > 0 {
      assert forall a | a in order[1..] :: a in order;
      NothingToReconcile(order[1..], assets, members, dryRun, addResponse);
    }
  }

  /** Asset A is in album X and asset B is in no album: exactly one write,
      adding B to X, and a count of 1 when the gateway accepts it. */
  lemma OneMissingAssetExample(addResponse: AlbumId -> Gateway.Response)
    requires addResponse("X") == Gateway.Reply(Gateway.StatusOK)
    ensures SynchronizeAlbums(["A", "B"], [Some(["X"]), Some([])], ["X"], false, addResponse)
      == SyncPlan([AlbumWrite("X", ["B"])], 1)
  {
    var assets := ["A", "B"];
    var listings: seq<AlbumListing> := [Some(["X"]), Some([])];
    assert ReportedAlbums(listings) == {"X"} by {
      assert ReportedAlbums(listings[1..]) == {};
    }
    var members := Memberships(assets, listings);
    assert members == map["A" := ["X"], "B" := []] by {
      assert assets[..1] == ["A"] && listings[..1] == [Some(["X"])];
      assert Fetches.Collect(["A"], [Some(["X"])]) == map["A" := ["X"]] by {
        assert Fetches.Collect(["A"][..0], [Some(["X"])][..0]) == map[];
      }
    }
    OneMissingReconcile(members, addResponse);
  }

  lemma OneMissingReconcile(members: map<AssetId, seq<AlbumId>>, addResponse: AlbumId -> Gateway.Response)
    requires members == map["A" := ["X"], "B" := []]
    requires addResponse("X") == Gateway.Reply(Gateway.StatusOK)
    ensures Reconcile(["X"], ["A", "B"], members, false, addResponse) == SyncPlan([AlbumWrite("X", ["B"])], 1)
  {
    assert InAlbum(members, "A", "X");
    assert !InAlbum(members, "B", "X");
    assert MissingFrom(["B"], members, "X") == ["B"];
    assert MissingFrom(["A", "B"], members, "X") == ["B"] by {
      assert ["A", "B"][1..] == ["B"];
    }
    assert Reconcile(["X"][1..], ["A", "B"], members, false, addResponse) == SyncPlan([], 0);
  }
}
