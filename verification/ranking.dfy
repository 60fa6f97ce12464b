/** The quality ranker: one left-to-right pass over the candidate map that
    keeps the best asset seen so far (main.go:386-413). */
module Ranking {
  import opened Types
  import Filenames

  /** One entry of the candidate map, in the order the pass visits it. */
  datatype Candidate = Candidate(id: AssetId, details: AssetDetails)

  /** The pass's state: the chosen key ("" while there is none), its size
      (-1 while there is none) and the details stored under that key. */
  datatype PassState = PassState(bestId: AssetId, bestSize: int, best: AssetDetails)

  const Unranked: PassState := PassState("", -1, NoDetails)

  /** A candidate the ranker can choose: it has EXIF data and a size that
      beats the initial -1. */
  predicate Eligible(d: AssetDetails) {
    d.exifInfo.Some? && d.exifInfo.value.fileSizeInByte >= 0
  }

  function SizeOf(d: AssetDetails): int
    requires d.exifInfo.Some?
  {
    d.exifInfo.value.fileSizeInByte
  }

  predicate IsOriginal(d: AssetDetails) {
    Filenames.IsOriginalFilename(d.originalFileName)
  }

  /** Whether candidate `c` takes the place of the current best: it must
      carry EXIF data and then either be strictly larger, or be of equal
      size while a best exists and be original against a non-original
      best, or, failing that, have a strictly earlier creation time. The
      date rule applies whatever the two names are. */
  predicate Displaces(r: PassState, c: Candidate) {
    match c.details.exifInfo
    case None => false
    case Some(exif) =>
      || exif.fileSizeInByte > r.bestSize
      || (&& exif.fileSizeInByte == r.bestSize
          && r.bestId != ""
          && (|| (IsOriginal(c.details) && !IsOriginal(r.best))
              || c.details.fileCreatedAt < r.best.fileCreatedAt))
  }

  function Consider(r: PassState, c: Candidate): PassState {
    if Displaces(r, c) then PassState(c.id, SizeOf(c.details), c.details) else r
  }

  /** The state after visiting every candidate of `cs`, first to last. */
  function Scan(cs: seq<Candidate>): PassState
    decreases |cs|
  {
    if |cs| == 0 then Unranked else Consider(Scan(cs[..|cs|-1]), cs[|cs|-1])
  }

  /** Position of the candidate that the pass last installed as best, -1 if none. */
  ghost function WinnerIndex(cs: seq<Candidate>): int
    decreases |cs|
  {
    if |cs| == 0 then -1
    else if Displaces(Scan(cs[..|cs|-1]), cs[|cs|-1]) then |cs| - 1
    else WinnerIndex(cs[..|cs|-1])
  }

  ghost predicate NonEmptyIds(cs: seq<Candidate>) {
    forall i | 0 <= i < |cs| :: cs[i].id != ""
  }

  ghost predicate DistinctIds(cs: seq<Candidate>) {
    forall i, j | 0 <= i < j < |cs| :: cs[i].id != cs[j].id
  }

  /** Candidate `i` is eligible and has size `m`. */
  ghost predicate AtSize(cs: seq<Candidate>, i: int, m: int) {
    0 <= i < |cs| && Eligible(cs[i].details) && SizeOf(cs[i].details) == m
  }

  /** Candidate `k` is eligible and no eligible candidate is larger. */
  ghost predicate Largest(cs: seq<Candidate>, k: int) {
    && 0 <= k < |cs|
    && Eligible(cs[k].details)
    && forall j | 0 <= j < |cs| && Eligible(cs[j].details) :: SizeOf(cs[j].details) <= SizeOf(cs[k].details)
  }

  /** The invariant of the pass: the state either is the initial one and no
      eligible candidate has been seen, or it holds an eligible candidate of
      the prefix whose size bounds every eligible size of the prefix. */
  lemma {:induction false} ScanFacts(cs: seq<Candidate>)
    ensures -1 <= WinnerIndex(cs) < |cs|
    ensures WinnerIndex(cs) == -1 <==> forall j | 0 <= j < |cs| :: !Eligible(cs[j].details)
    ensures WinnerIndex(cs) == -1 ==> Scan(cs) == Unranked
    ensures WinnerIndex(cs) >= 0 ==>
      var w := WinnerIndex(cs);
      && cs[w].id == Scan(cs).bestId
      && cs[w].details == Scan(cs).best
      && Eligible(Scan(cs).best)
      && SizeOf(Scan(cs).best) == Scan(cs).bestSize
    ensures forall j | 0 <= j < |cs| && Eligible(cs[j].details) :: SizeOf(cs[j].details) <= Scan(cs).bestSize
    decreases |cs|
  {
    if |cs| > 0 {
      var n := |cs| - 1;
      var p := cs[..n];
      ScanFacts(p);
      assert forall j | 0 <= j < n :: p[j] == cs[j];
    }
  }

  /** The asset the pass selects, or "" when it selects none. The chosen key
      belongs to an eligible candidate of maximal size; with no eligible
      candidate the answer is ""; with one, and no empty key, it is not "". */
  function SelectBestQualityAsset(cs: seq<Candidate>): (r: AssetId)
    ensures r != "" ==> exists i | 0 <= i < |cs| :: cs[i].id == r && Largest(cs, i)
    ensures (forall j | 0 <= j < |cs| :: !Eligible(cs[j].details)) ==> r == ""
    ensures NonEmptyIds(cs) && (exists j | 0 <= j < |cs| :: Eligible(cs[j].details)) ==> r != ""
    ensures DistinctIds(cs) && r != "" ==> forall i | 0 <= i < |cs| && cs[i].id == r :: Largest(cs, i)
  {
    ScanFacts(cs);
    Scan(cs).bestId
  }

  /** A candidate strictly larger than every other eligible one is selected,
      whatever its name or date and wherever it stands in the order. */
  lemma LargestSizeWins(cs: seq<Candidate>, k: int)
    requires 0 <= k < |cs| && Eligible(cs[k].details)
    requires forall j | 0 <= j < |cs| && j != k && Eligible(cs[j].details) :: SizeOf(cs[j].details) < SizeOf(cs[k].details)
    ensures SelectBestQualityAsset(cs) == cs[k].id
  {
    ScanFacts(cs);
    var w := WinnerIndex(cs);
    assert w >= 0;
    assert SizeOf(cs[w].details) >= SizeOf(cs[k].details);
  }

  /** Prefix invariant behind the originality tie-break: once the pass holds
      a candidate of the maximal size `m`, and all candidates of that size
      share one creation time, the held one is original unless none of
      that size seen so far is. */
  lemma {:induction false} OriginalKept(cs: seq<Candidate>, m: int)
    requires NonEmptyIds(cs)
    requires forall j | 0 <= j < |cs| && Eligible(cs[j].details) :: SizeOf(cs[j].details) <= m
    requires SharedTime(cs, m)
    ensures OriginalHeld(cs, m)
    decreases |cs|
  {
    if |cs| > 0 {
      var n := |cs| - 1;
      var p := cs[..n];
      var c := cs[n];
      PrefixKeepsSharedTime(cs, m);
      OriginalKept(p, m);
      ScanFacts(p);
      if Displaces(Scan(p), cs[n]) {
        OriginalStepTaken(cs, m);
      } else {
        OriginalStepKept(cs, m);
      }
    }
  }

  /** The assumptions of `OriginalKept` carry over to the prefix without the
      last candidate. */
  lemma PrefixKeepsSharedTime(cs: seq<Candidate>, m: int)
    requires |cs| > 0
    requires NonEmptyIds(cs)
    requires forall j | 0 <= j < |cs| && Eligible(cs[j].details) :: SizeOf(cs[j].details) <= m
    requires SharedTime(cs, m)
    ensures var p := cs[..|cs| - 1];
      && NonEmptyIds(p)
      && (forall j | 0 <= j < |p| && Eligible(p[j].details) :: SizeOf(p[j].details) <= m)
      && SharedTime(p, m)
  {
    var p := cs[..|cs| - 1];
    assert forall j | 0 <= j < |p| :: p[j] == cs[j];
    assert forall j | AtSize(p, j, m) :: AtSize(cs, j, m);
  }

  /** Candidates of size `m` share one creation time. */
  ghost predicate SharedTime(cs: seq<Candidate>, m: int) {
    forall i, j | AtSize(cs, i, m) && AtSize(cs, j, m) :: cs[i].details.fileCreatedAt == cs[j].details.fileCreatedAt
  }

  /** The claim of `OriginalKept` for `cs`. */
  ghost predicate OriginalHeld(cs: seq<Candidate>, m: int) {
    Scan(cs).bestSize == m && m >= 0 ==>
      IsOriginal(Scan(cs).best) || forall j | AtSize(cs, j, m) :: !IsOriginal(cs[j].details)
  }

  /** The step of `OriginalKept` where the last candidate takes over. */
  lemma OriginalStepTaken(cs: seq<Candidate>, m: int)
    requires |cs| > 0
    requires forall j | 0 <= j < |cs| && Eligible(cs[j].details) :: SizeOf(cs[j].details) <= m
    requires SharedTime(cs, m)
    requires Displaces(Scan(cs[..|cs|-1]), cs[|cs|-1])
    ensures OriginalHeld(cs, m)
  {
    var n := |cs| - 1;
    var p := cs[..n];
    var c := cs[n];
    assert forall j | 0 <= j < n :: p[j] == cs[j];
    ScanFacts(p);
    var r := Scan(p);
    if Scan(cs).bestSize == m && m >= 0 && !IsOriginal(Scan(cs).best) {
      if r.bestSize < m {
        assert forall j | AtSize(cs, j, m) :: j == n;
      } else {
        assert false;
      }
    }
  }

  /** The step of `OriginalKept` where the held candidate stays. */
  lemma OriginalStepKept(cs: seq<Candidate>, m: int)
    requires |cs| > 0
    requires NonEmptyIds(cs)
    requires forall j | 0 <= j < |cs| && Eligible(cs[j].details) :: SizeOf(cs[j].details) <= m
    requires SharedTime(cs, m)
    requires !Displaces(Scan(cs[..|cs|-1]), cs[|cs|-1])
    requires OriginalHeld(cs[..|cs|-1], m)
    ensures OriginalHeld(cs, m)
  {
    var n := |cs| - 1;
    var p := cs[..n];
    var c := cs[n];
    assert forall j | 0 <= j < n :: p[j] == cs[j];
    ScanFacts(p);
    var r := Scan(p);
    if Scan(cs).bestSize == m && m >= 0 && !IsOriginal(Scan(cs).best) {
      var w := WinnerIndex(p);
      assert w >= 0;
      forall j | AtSize(cs, j, m)
        ensures !IsOriginal(cs[j].details)
      {
        if j == n {
          assert r.bestId == cs[w].id;
          assert AtSize(cs, w, m);
        } else {
          assert AtSize(p, j, m);
        }
      }
    }
  }

  /** Among candidates of the largest size that share one creation time, an
      original name is preferred: if any of them is original, the selected
      one is, in every visiting order (main_test.go:103-121). */
  lemma SharedTimePrefersOriginal(cs: seq<Candidate>, k: int)
    requires NonEmptyIds(cs)
    requires Largest(cs, k)
    requires forall i, j | AtSize(cs, i, SizeOf(cs[k].details)) && AtSize(cs, j, SizeOf(cs[k].details)) ::
      cs[i].details.fileCreatedAt == cs[j].details.fileCreatedAt
    requires exists j | AtSize(cs, j, SizeOf(cs[k].details)) :: IsOriginal(cs[j].details)
    ensures exists i | AtSize(cs, i, SizeOf(cs[k].details)) :: cs[i].id == SelectBestQualityAsset(cs) && IsOriginal(cs[i].details)
  {
    var m := SizeOf(cs[k].details);
    ScanFacts(cs);
    OriginalKept(cs, m);
    var w := WinnerIndex(cs);
    assert AtSize(cs, w, m);
  }

  /** Candidate `w` has size `m`, no candidate of that size is earlier, and
      every earlier-visited candidate of that size is strictly later. */
  ghost predicate FirstEarliest(cs: seq<Candidate>, w: int, m: int) {
    && AtSize(cs, w, m)
    && (forall j | AtSize(cs, j, m) :: cs[w].details.fileCreatedAt <= cs[j].details.fileCreatedAt)
    && (forall j | AtSize(cs, j, m) && j < w :: cs[j].details.fileCreatedAt > cs[w].details.fileCreatedAt)
  }

  /** Prefix invariant behind the date tie-break: when all candidates of the
      maximal size `m` are in one originality class, the held candidate of
      that size is the first one with the earliest creation time. */
  lemma {:induction false} EarliestKept(cs: seq<Candidate>, m: int)
    requires NonEmptyIds(cs)
    requires forall j | 0 <= j < |cs| && Eligible(cs[j].details) :: SizeOf(cs[j].details) <= m
    requires forall i, j | AtSize(cs, i, m) && AtSize(cs, j, m) :: IsOriginal(cs[i].details) == IsOriginal(cs[j].details)
    ensures Scan(cs).bestSize == m && m >= 0 ==> FirstEarliest(cs, WinnerIndex(cs), m)
    decreases |cs|
  {
    if |cs| > 0 {
      var n := |cs| - 1;
      var p := cs[..n];
      assert forall j | 0 <= j < n :: p[j] == cs[j];
      assert forall j | AtSize(p, j, m) :: AtSize(cs, j, m);
      EarliestKept(p, m);
      ScanFacts(p);
      ScanFacts(cs);
      if Scan(cs).bestSize == m && m >= 0 {
        if Displaces(Scan(p), cs[n]) {
          EarliestStepTaken(cs, m);
        } else {
          EarliestStepKept(cs, m);
        }
      }
    }
  }

  /** The step of `EarliestKept` where the last candidate takes over. */
  lemma EarliestStepTaken(cs: seq<Candidate>, m: int)
    requires |cs| > 0 && m >= 0
    requires NonEmptyIds(cs)
    requires forall j | 0 <= j < |cs| && Eligible(cs[j].details) :: SizeOf(cs[j].details) <= m
    requires forall i, j | AtSize(cs, i, m) && AtSize(cs, j, m) :: IsOriginal(cs[i].details) == IsOriginal(cs[j].details)
    requires var p := cs[..|cs|-1];
      && Displaces(Scan(p), cs[|cs|-1])
      && Scan(cs).bestSize == m
      && (Scan(p).bestSize == m ==> FirstEarliest(p, WinnerIndex(p), m))
    ensures FirstEarliest(cs, WinnerIndex(cs), m)
  {
    var n := |cs| - 1;
    var p := cs[..n];
    var c := cs[n];
    assert forall j | 0 <= j < n :: p[j] == cs[j];
    ScanFacts(p);
    var r := Scan(p);
    assert WinnerIndex(cs) == n;
    assert AtSize(cs, n, m);
    if r.bestSize < m {
      assert forall j | AtSize(cs, j, m) :: j == n;
    } else {
      var v := WinnerIndex(p);
      assert AtSize(cs, v, m);
      assert c.details.fileCreatedAt < cs[v].details.fileCreatedAt;
      forall j | AtSize(cs, j, m) && j < n
        ensures cs[j].details.fileCreatedAt >= cs[v].details.fileCreatedAt
      {
        assert AtSize(p, j, m);
      }
    }
  }

  /** The step of `EarliestKept` where the held candidate stays. */
  lemma EarliestStepKept(cs: seq<Candidate>, m: int)
    requires |cs| > 0 && m >= 0
    requires NonEmptyIds(cs)
    requires forall j | 0 <= j < |cs| && Eligible(cs[j].details) :: SizeOf(cs[j].details) <= m
    requires var p := cs[..|cs|-1];
      && !Displaces(Scan(p), cs[|cs|-1])
      && Scan(cs).bestSize == m
      && FirstEarliest(p, WinnerIndex(p), m)
    ensures FirstEarliest(cs, WinnerIndex(cs), m)
  {
    var n := |cs| - 1;
    var p := cs[..n];
    var c := cs[n];
    assert forall j | 0 <= j < n :: p[j] == cs[j];
    ScanFacts(p);
    var v := WinnerIndex(p);
    assert WinnerIndex(cs) == v;
    assert AtSize(cs, v, m);
    if AtSize(cs, n, m) {
      assert Scan(p).bestId == cs[v].id;
      assert !(c.details.fileCreatedAt < cs[v].details.fileCreatedAt);
    }
    forall j | AtSize(cs, j, m) && j < n
      ensures AtSize(p, j, m)
    {
    }
  }

  /** Among candidates of the largest size that are all original or all
      camera-named, the selected one has the earliest creation time, and of
      several with that time the first visited wins (main_test.go:122-142). */
  lemma SameClassPrefersEarliest(cs: seq<Candidate>, k: int)
    requires NonEmptyIds(cs)
    requires Largest(cs, k)
    requires forall i, j | AtSize(cs, i, SizeOf(cs[k].details)) && AtSize(cs, j, SizeOf(cs[k].details)) ::
      IsOriginal(cs[i].details) == IsOriginal(cs[j].details)
    ensures exists i | AtSize(cs, i, SizeOf(cs[k].details)) ::
      && cs[i].id == SelectBestQualityAsset(cs)
      && (forall j | AtSize(cs, j, SizeOf(cs[k].details)) :: cs[i].details.fileCreatedAt <= cs[j].details.fileCreatedAt)
      && (forall j | AtSize(cs, j, SizeOf(cs[k].details)) && j < i :: cs[j].details.fileCreatedAt > cs[i].details.fileCreatedAt)
  {
    var m := SizeOf(cs[k].details);
    ScanFacts(cs);
    EarliestKept(cs, m);
    var w := WinnerIndex(cs);
    assert FirstEarliest(cs, w, m);
  }

  function SizedAt(name: string, size: int, createdAt: Timestamp): AssetDetails {
    AssetDetails(name, Some(ExifInfo(size, 0, 0)), createdAt)
  }

  /** The pass over two candidates, unrolled. */
  lemma ScanPair(a: Candidate, b: Candidate)
    ensures Scan([a, b]) == Consider(Consider(Unranked, a), b)
  {
    assert [a, b][..1] == [a];
    assert [a][..0] == [];
    assert Scan([a]) == Consider(Unranked, a);
  }

  /** The repository's ranking tests hold in both orders a Go map may
      visit their two entries: the larger file wins (main_test.go:83-101). */
  lemma LargerFileExample()
    ensures var small := Candidate("asset1", SizedAt("photo.jpg", 1000000, ZeroTime));
            var large := Candidate("asset2", SizedAt("photo.jpg", 2000000, ZeroTime));
            SelectBestQualityAsset([small, large]) == "asset2" && SelectBestQualityAsset([large, small]) == "asset2"
  {
    var small := Candidate("asset1", SizedAt("photo.jpg", 1000000, ZeroTime));
    var large := Candidate("asset2", SizedAt("photo.jpg", 2000000, ZeroTime));
    ScanPair(small, large);
    ScanPair(large, small);
  }

  /** Equal sizes: the original name wins (main_test.go:102-121). */
  lemma OriginalNameExample()
    ensures var camera := Candidate("asset1", SizedAt("IMG_1234.jpg", 1000000, ZeroTime));
            var named := Candidate("asset2", SizedAt("vacation.jpg", 1000000, ZeroTime));
            SelectBestQualityAsset([camera, named]) == "asset2" && SelectBestQualityAsset([named, camera]) == "asset2"
  {
    var camera := Candidate("asset1", SizedAt("IMG_1234.jpg", 1000000, ZeroTime));
    var named := Candidate("asset2", SizedAt("vacation.jpg", 1000000, ZeroTime));
    assert !IsOriginal(camera.details) by {
      assert Filenames.StartsIgnoringCase("IMG_1234.jpg", Filenames.CameraPrefixes[0]);
    }
    Filenames.VacationIsOriginal();
    ScanPair(camera, named);
    ScanPair(named, camera);
  }

  /** Equal sizes, both names original: the earlier date wins
      (main_test.go:122-142; dates as yyyymmdd numbers). */
  lemma EarlierDateExample()
    ensures var later := Candidate("asset1", SizedAt("photo.jpg", 1000000, 20230102));
            var earlier := Candidate("asset2", SizedAt("image.jpg", 1000000, 20230101));
            SelectBestQualityAsset([later, earlier]) == "asset2" && SelectBestQualityAsset([earlier, later]) == "asset2"
  {
    var later := Candidate("asset1", SizedAt("photo.jpg", 1000000, 20230102));
    var earlier := Candidate("asset2", SizedAt("image.jpg", 1000000, 20230101));
    Filenames.PhotoIsOriginal();
    Filenames.ImageIsOriginal();
    var first := Consider(Unranked, later);
    assert first == PassState("asset1", 1000000, later.details);
    assert Displaces(first, earlier);
    ScanPair(later, earlier);
    var second := Consider(Unranked, earlier);
    assert second == PassState("asset2", 1000000, earlier.details);
    assert !Displaces(second, later);
    ScanPair(earlier, later);
  }

  /** The date rule is not confined to candidates of the same originality
      class: of two equal-size candidates, an original name visited first
      loses to an earlier camera-named one, while in the other order the
      original one is kept. The outcome thus depends on the visiting order. */
  lemma DateRuleOverridesOriginality()
    ensures var named := Candidate("a", SizedAt("vacation.jpg", 1000, 2));
            var camera := Candidate("b", SizedAt("IMG_0001.jpg", 1000, 1));
            && SelectBestQualityAsset([named, camera]) == "b"
            && SelectBestQualityAsset([camera, named]) == "a"
  {
    var named := Candidate("a", SizedAt("vacation.jpg", 1000, 2));
    var camera := Candidate("b", SizedAt("IMG_0001.jpg", 1000, 1));
    assert !IsOriginal(camera.details) by {
      assert Filenames.StartsIgnoringCase("IMG_0001.jpg", Filenames.CameraPrefixes[0]);
    }
    Filenames.VacationIsOriginal();
    ScanPair(named, camera);
    ScanPair(camera, named);
  }

  /** An asset without a creation date carries Go's zero time, the earliest
      instant, so among equal-size candidates of one class it wins the date
      rule against any dated one, in either order. */
  lemma MissingDateCountsAsEarliest(name: string, size: int, t: Timestamp)
    requires size >= 0 && t > ZeroTime
    ensures var undated := Candidate("u", SizedAt(name, size, ZeroTime));
            var dated := Candidate("d", SizedAt(name, size, t));
            && SelectBestQualityAsset([dated, undated]) == "u"
            && SelectBestQualityAsset([undated, dated]) == "u"
  {
    var undated := Candidate("u", SizedAt(name, size, ZeroTime));
    var dated := Candidate("d", SizedAt(name, size, t));
    ScanPair(dated, undated);
    ScanPair(undated, dated);
  }
}
