/** The deletion step (main.go:307-382), as a planner: from the fetched asset
    details, the configuration and the operator's answer it decides which
    assets are deleted and which delete requests the gateway receives. */
module Deletion {
  import opened Types
  import opened Enumerations
  import Fetches
  import Ascii
  import Gateway
  import Ranking
  import opened Configuration

  /** What reading the operator's answer produced: a failed read (end of
      input, an empty line, or a line of more than one word, which `Scanln`
      rejects) or one word. */
  datatype OperatorInput = Unreadable | Answer(text: string)

  /** The answer lets deletion go ahead: "y" or "yes" in any case. */
  predicate Affirmative(input: OperatorInput) {
    input.Answer? && (Ascii.EqualFold(input.text, "y") || Ascii.EqualFold(input.text, "yes"))
  }

  /** Why the step ended without deleting, with no error. */
  datatype StopReason =
    | TooFewDetails    // fewer than two assets had their details fetched
    | NothingToDelete  // the best asset was the only one
    | InputUnreadable  // the confirmation prompt could not be read
    | Declined         // the operator did not answer yes

  datatype DeleteError = NoBestAsset

  /** How the step ended. `doomed` lists the assets slated for deletion,
      `requests` the delete requests sent, and `deleted` those the gateway
      accepted. */
  datatype DeletePlan =
    | Stopped(reason: StopReason)
    | Deleting(best: AssetId, doomed: seq<AssetId>, requests: seq<AssetId>, deleted: set<AssetId>)

  /** The candidate map visited in `order`. */
  function Candidates(order: seq<AssetId>, details: map<AssetId, AssetDetails>): (cs: seq<Ranking.Candidate>)
    requires forall k | 0 <= k < |order| :: order[k] in details
    ensures |cs| == |order|
    ensures forall k | 0 <= k < |order| :: cs[k] == Ranking.Candidate(order[k], details[order[k]])
  {
    seq(|order|, k requires 0 <= k < |order| => Ranking.Candidate(order[k], details[order[k]]))
  }

  /** The deletion step once the details are fetched (main.go:321-381).
      `details` is the map of fetched details; `order` is the order in
      which the loops visit it; `deleteResponse` is the gateway's answer to
      each delete request. */
  function PlanDeletion(
    config: Config,
    details: map<AssetId, AssetDetails>,
    order: seq<AssetId>,
    operator: OperatorInput,
    deleteResponse: AssetId -> Gateway.Response): (r: Result<DeletePlan, DeleteError>)
    requires IsEnumeration(order, details.Keys)
    ensures r == Success(Stopped(TooFewDetails)) <==> |details| < 2
    ensures r.Failure? <==> |details| >= 2 && Ranking.SelectBestQualityAsset(Candidates(order, details)) == ""
    ensures r.Success? && r.value.Deleting? ==>
      && r.value.best == Ranking.SelectBestQualityAsset(Candidates(order, details))
      && r.value.best in details
      && (forall x :: x in r.value.doomed <==> x in details && x != r.value.best)
      && Distinct(r.value.doomed)
      && r.value.requests == (if config.dryRun then [] else r.value.doomed)
      && (forall x :: x in r.value.deleted <==> x in r.value.requests && Gateway.DeleteAccepted(deleteResponse(x)))
      && (config.yes || config.dryRun || Affirmative(operator))
    ensures r.Success? && r.value.Stopped? && r.value.reason in {InputUnreadable, Declined} ==>
      !config.yes && !config.dryRun && !Affirmative(operator)
  {
    if |details| < 2 then Success(Stopped(TooFewDetails))
    else
      var best := Ranking.SelectBestQualityAsset(Candidates(order, details));
      if best == "" then Failure(NoBestAsset)
      else Success(Proceed(config, best, Without(order, best), operator, deleteResponse))
  }

  /** The rest of the step once the best asset is chosen (main.go:341-381):
      stop when nothing is slated, ask for confirmation unless it is
      skipped, then send the delete requests unless previewing. */
  function Proceed(
    config: Config,
    best: AssetId,
    doomed: seq<AssetId>,
    operator: OperatorInput,
    deleteResponse: AssetId -> Gateway.Response): DeletePlan
  {
    if |doomed| == 0 then Stopped(NothingToDelete)
    else if !config.yes && !config.dryRun && operator.Unreadable? then Stopped(InputUnreadable)
    else if !config.yes && !config.dryRun && !Affirmative(operator) then Stopped(Declined)
    else
      var requests := if config.dryRun then [] else doomed;
      Deleting(best, doomed, requests, set x | x in requests && Gateway.DeleteAccepted(deleteResponse(x)))
  }

  /** The whole deletion step (main.go:307-382): fetch the details of every
      group asset, then plan on the map of those that arrived. `fetches[i]`
      answers the details request for `assets[i]`. Only fetched assets are
      slated, and the best one is kept. */
  function AutoDeleteDuplicates(
    config: Config,
    assets: seq<AssetId>,
    fetches: seq<Option<AssetDetails>>,
    order: seq<AssetId>,
    operator: OperatorInput,
    deleteResponse: AssetId -> Gateway.Response): (r: Result<DeletePlan, DeleteError>)
    requires |fetches| == |assets|
    requires IsEnumeration(order, Fetches.Fetched(assets, fetches))
    ensures r == Success(Stopped(TooFewDetails)) <==> |Fetches.Fetched(assets, fetches)| < 2
    ensures (forall i | 0 <= i < |assets| :: fetches[i].None?) ==> r == Success(Stopped(TooFewDetails))
    ensures r.Success? && r.value.Deleting? ==>
      && Fetches.Succeeded(assets, fetches, r.value.best)
      && (forall x :: x in r.value.doomed <==> x != r.value.best && Fetches.Succeeded(assets, fetches, x))
      && (forall x | x in r.value.requests :: x != r.value.best && Fetches.Succeeded(assets, fetches, x))
  {
    var details := Fetches.Collect(assets, fetches);
    Fetches.CollectedKeys(assets, fetches);
    assert |details| == |details.Keys|;
    assert (forall i | 0 <= i < |assets| :: fetches[i].None?) ==> details == map[];
    PlanDeletion(config, details, order, operator, deleteResponse)
  }

  /** Exactly the answers "y" and "yes", in any mixture of case, are affirmative. */
  lemma AffirmativeAnswers(text: string)
    ensures Affirmative(Answer(text)) <==> Ascii.ToLower(text) == "y" || Ascii.ToLower(text) == "yes"
  {
    Ascii.EqualFoldIsLowerEquality(text, "y");
    Ascii.EqualFoldIsLowerEquality(text, "yes");
    assert Ascii.ToLower("y") == "y";
    assert Ascii.ToLower("yes") == "yes";
  }

  /** With at least two fetched assets and a best one, something is always
      slated for deletion, so the "no duplicates to delete" exit
      (main.go:348-351) is never taken. */
  lemma NothingToDeleteUnreachable(
    config: Config,
    details: map<AssetId, AssetDetails>,
    order: seq<AssetId>,
    operator: OperatorInput,
    deleteResponse: AssetId -> Gateway.Response)
    requires IsEnumeration(order, details.Keys)
    ensures PlanDeletion(config, details, order, operator, deleteResponse) != Success(Stopped(NothingToDelete))
  {
    if |details| >= 2 {
      var best := Ranking.SelectBestQualityAsset(Candidates(order, details));
      if best != "" {
        assert |details.Keys| == |details|;
        SomethingElseSlated(details.Keys, order, best);
        assert PlanDeletion(config, details, order, operator, deleteResponse)
          == Success(Proceed(config, best, Without(order, best), operator, deleteResponse));
      }
    }
  }

  /** Unless the confirmation is skipped, deletion goes ahead exactly when
      the operator answers yes. */
  lemma ConfirmationDecides(
    config: Config,
    details: map<AssetId, AssetDetails>,
    order: seq<AssetId>,
    operator: OperatorInput,
    deleteResponse: AssetId -> Gateway.Response)
    requires IsEnumeration(order, details.Keys)
    ensures var r := PlanDeletion(config, details, order, operator, deleteResponse);
      r.Success? && |details| >= 2 ==>
        (r.value.Deleting? <==> config.yes || config.dryRun || Affirmative(operator))
  {
    NothingToDeleteUnreachable(config, details, order, operator, deleteResponse);
    if |details| >= 2 {
      var best := Ranking.SelectBestQualityAsset(Candidates(order, details));
      if best != "" {
        assert PlanDeletion(config, details, order, operator, deleteResponse)
          == Success(Proceed(config, best, Without(order, best), operator, deleteResponse));
      }
    }
  }

  /** An enumeration of at least two keys still holds a key other than any
      one it leaves out. */
  lemma SomethingElseSlated(keys: set<AssetId>, order: seq<AssetId>, best: AssetId)
    requires IsEnumeration(order, keys)
    requires |keys| >= 2
    ensures |Without(order, best)| > 0
  {
    var other :| other in keys && other != best by {
      if keys <= {best} {
        SubsetSize(keys, {best});
        assert false;
      }
    }
    assert other in Without(order, best);
  }

  /** Preview mode slates the same assets as a run with confirmation skipped,
      and sends no delete request. */
  lemma DryRunPreviewsDeletion(
    config: Config,
    details: map<AssetId, AssetDetails>,
    order: seq<AssetId>,
    operator: OperatorInput,
    deleteResponse: AssetId -> Gateway.Response)
    requires IsEnumeration(order, details.Keys)
    ensures var preview := PlanDeletion(config.(dryRun := true), details, order, operator, deleteResponse);
            var live := PlanDeletion(config.(dryRun := false, yes := true), details, order, operator, deleteResponse);
      && preview.Success? == live.Success?
      && (preview.Success? && preview.value.Deleting? ==>
            && live.value.Deleting?
            && preview.value.doomed == live.value.doomed
            && preview.value.requests == []
            && live.value.requests == live.value.doomed)
  {
  }

  /** With no empty asset id, the step fails exactly when at least two
      assets were fetched and none of them has usable size metadata. */
  lemma FailsOnlyWithoutMetadata(
    config: Config,
    details: map<AssetId, AssetDetails>,
    order: seq<AssetId>,
    operator: OperatorInput,
    deleteResponse: AssetId -> Gateway.Response)
    requires IsEnumeration(order, details.Keys)
    requires "" !in details
    ensures PlanDeletion(config, details, order, operator, deleteResponse).Failure? <==>
      |details| >= 2 && forall x | x in details :: !Ranking.Eligible(details[x])
  {
    var cs := Candidates(order, details);
    assert Ranking.NonEmptyIds(cs);
    if exists x | x in details :: Ranking.Eligible(details[x]) {
      var x :| x in details && Ranking.Eligible(details[x]);
      assert x in order;
      var k :| 0 <= k < |order| && order[k] == x;
      assert Ranking.Eligible(cs[k].details);
    }
  }
}
