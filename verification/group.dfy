/** One duplicate group, end to end (main.go:207-235): groups of fewer than
    two assets are skipped; otherwise albums are reconciled first and, when
    automatic deletion is enabled, the lower-quality copies are removed. */
module Groups {
  import opened Types
  import opened Enumerations
  import Fetches
  import Gateway
  import opened Configuration
  import AlbumSync
  import Deletion

  /** Everything the gateway and the operator answer while one group is
      processed. `albumListings[i]` and `detailFetches[i]` answer the
      requests for the group's i-th asset; the two orders are how the loops
      visit the album-id map and the details map. */
  datatype GatewayAnswers = GatewayAnswers(
    albumListings: seq<AlbumSync.AlbumListing>,
    albumOrder: seq<AlbumId>,
    addResponse: AlbumId -> Gateway.Response,
    detailFetches: seq<Option<AssetDetails>>,
    detailOrder: seq<AssetId>,
    operator: Deletion.OperatorInput,
    deleteResponse: AssetId -> Gateway.Response)

  /** One answer per asset, and each map visited once per key. */
  predicate Answers(assets: seq<AssetId>, g: GatewayAnswers) {
    && |g.albumListings| == |assets|
    && |g.detailFetches| == |assets|
    && IsEnumeration(g.albumOrder, AlbumSync.ReportedAlbums(g.albumListings))
    && IsEnumeration(g.detailOrder, Fetches.Fetched(assets, g.detailFetches))
  }

  datatype GroupError = AutoDeleteFailed(cause: Deletion.DeleteError)

  /** A group that ran: the album reconciliation and, when enabled, the
      deletion step. */
  datatype GroupReport =
    | Skipped
    | Processed(sync: AlbumSync.SyncPlan, deletion: Option<Deletion.DeletePlan>)

  /** A request the group sends that changes the library. */
  datatype GatewayCall =
    | AddAssets(album: AlbumId, assets: seq<AssetId>)
    | DeleteAsset(id: AssetId)

  function ProcessDuplicateGroup(config: Config, group: DuplicateGroup, g: GatewayAnswers): (r: Result<GroupReport, GroupError>)
    requires Answers(group.assets, g)
    ensures r == Success(Skipped) <==> |group.assets| < 2
    ensures r.Failure? <==>
      && |group.assets| >= 2
      && config.autoDelete
      && Deletion.AutoDeleteDuplicates(config, group.assets, g.detailFetches, g.detailOrder, g.operator, g.deleteResponse).Failure?
    ensures r.Success? && r.value.Processed? ==>
      && r.value.sync == AlbumSync.SynchronizeAlbums(group.assets, g.albumListings, g.albumOrder, config.dryRun, g.addResponse)
      && (r.value.deletion.Some? <==> config.autoDelete)
      && (r.value.deletion.Some? ==>
            Deletion.AutoDeleteDuplicates(config, group.assets, g.detailFetches, g.detailOrder, g.operator, g.deleteResponse)
              == Success(r.value.deletion.value))
  {
    if |group.assets| < 2 then Success(Skipped)
    else
      var sync := AlbumSync.SynchronizeAlbums(group.assets, g.albumListings, g.albumOrder, config.dryRun, g.addResponse);
      if !config.autoDelete then Success(Processed(sync, None))
      else
        match Deletion.AutoDeleteDuplicates(config, group.assets, g.detailFetches, g.detailOrder, g.operator, g.deleteResponse)
        case Failure(e) => Failure(AutoDeleteFailed(e))
        case Success(plan) => Success(Processed(sync, Some(plan)))
  }

  function AddCalls(writes: seq<AlbumSync.AlbumWrite>): (calls: seq<GatewayCall>)
    ensures |calls| == |writes|
    ensures forall k | 0 <= k < |writes| :: calls[k] == AddAssets(writes[k].album, writes[k].assets)
  {
    seq(|writes|, k requires 0 <= k < |writes| => AddAssets(writes[k].album, writes[k].assets))
  }

  function DeleteCalls(ids: seq<AssetId>): (calls: seq<GatewayCall>)
    ensures |calls| == |ids|
    ensures forall k | 0 <= k < |ids| :: calls[k] == DeleteAsset(ids[k])
  {
    seq(|ids|, k requires 0 <= k < |ids| => DeleteAsset(ids[k]))
  }

  /** The library-changing requests of a report, in the order they are sent. */
  function Calls(report: GroupReport): seq<GatewayCall> {
    match report
    case Skipped => []
    case Processed(sync, deletion) =>
      AddCalls(sync.writes)
        + if deletion.Some? && deletion.value.Deleting? then DeleteCalls(deletion.value.requests) else []
  }

  /** The calls a group makes: every album addition before every deletion;
      deletions only with automatic deletion on and preview off, never of
      the best asset and never of an asset whose details were not fetched;
      in preview mode, none at all. */
  lemma GroupCalls(config: Config, group: DuplicateGroup, g: GatewayAnswers)
    requires Answers(group.assets, g)
    ensures var r := ProcessDuplicateGroup(config, group, g);
      r.Success? ==>
        var calls := Calls(r.value);
        && (forall i, j | 0 <= i < j < |calls| :: calls[i].DeleteAsset? ==> calls[j].DeleteAsset?)
        && (config.dryRun ==> calls == [])
        && (forall k | 0 <= k < |calls| && calls[k].DeleteAsset? ::
              && config.autoDelete && !config.dryRun
              && r.value.deletion.Some? && r.value.deletion.value.Deleting?
              && calls[k].id != r.value.deletion.value.best
              && exists i | 0 <= i < |group.assets| :: group.assets[i] == calls[k].id && g.detailFetches[i].Some?)
  {
    var r := ProcessDuplicateGroup(config, group, g);
    if r.Success? && r.value.Processed? {
      var calls := Calls(r.value);
      CallLayout(r.value);
      forall k | 0 <= k < |calls| && calls[k].DeleteAsset?
        ensures calls[k].id != r.value.deletion.value.best
        ensures exists i | 0 <= i < |group.assets| :: group.assets[i] == calls[k].id && g.detailFetches[i].Some?
      {
        assert calls[k].id in r.value.deletion.value.requests;
      }
    }
  }

  /** The shape of the call list: the album additions, then the delete
      requests of the deletion plan. */
  lemma CallLayout(report: GroupReport)
    requires report.Processed?
    ensures var calls := Calls(report);
      forall k | 0 <= k < |calls| ::
        && (calls[k].DeleteAsset? <==> k >= |report.sync.writes|)
        && (calls[k].DeleteAsset? ==>
              && report.deletion.Some? && report.deletion.value.Deleting?
              && calls[k].id in report.deletion.value.requests)
  {
    var adds := AddCalls(report.sync.writes);
    if report.deletion.Some? && report.deletion.value.Deleting? {
      var requests := report.deletion.value.requests;
      assert Calls(report) == adds + DeleteCalls(requests);
      forall k | |adds| <= k < |Calls(report)|
        ensures Calls(report)[k].id in requests
      {
        assert Calls(report)[k] == DeleteAsset(requests[k - |adds|]);
      }
    } else {
      assert Calls(report) == adds;
    }
  }

  /** Reconciliation does not depend on automatic deletion: turning it on
      changes neither the album writes nor the count. */
  lemma SyncIndependentOfDeletion(config: Config, group: DuplicateGroup, g: GatewayAnswers)
    requires Answers(group.assets, g)
    requires |group.assets| >= 2
    ensures var off := ProcessDuplicateGroup(config.(autoDelete := false), group, g);
            var on := ProcessDuplicateGroup(config.(autoDelete := true), group, g);
      && off.Success? && off.value.Processed? && off.value.deletion == None
      && (on.Success? ==> on.value.Processed? && on.value.sync == off.value.sync)
  {
  }
}
