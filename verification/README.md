# Duplicate-group reconciliation, modelled in Dafny

This project models the decision logic of the Immich duplicate cleaner
(`main.go`). The cleaner works on one duplicate group at a time, and a
duplicate group is a set of assets that the Immich server considers copies
of one photo or video. For each group it does the following:

1. It skips groups of fewer than two assets.
2. It synchronizes albums. Every asset of the group is added to every album
   that any asset of the group belongs to.
3. When automatic deletion is enabled, it picks the best-quality copy and
   deletes the others. It asks the operator for confirmation unless
   `--yes` or `--dry-run` is given.

Each step is a pure function. Everything the HTTP gateway or the operator
would answer is an explicit input:

- the album list per asset, which may be absent when the request fails;
- the asset details per asset, which may also be absent;
- the status of each album write and of each delete;
- the operator's answer.

A step's output is the plan it carries out: the writes and deletes it
issues, and the count it reports. Go's map iteration order is unspecified,
so every loop over a Go map takes an explicit visiting order. That order is
any duplicate-free enumeration of the map's keys. Where the code makes a
result independent of that order, the order-independence is proved. Where
it does not, a lemma exhibits the dependence.

Modules, following the program's structure:

- `Types`: options, results, asset details and groups.
- `Enumerations`: visiting orders and sums over them.
- `Fetches`: the maps that the per-asset fetch loops build.
- `Ascii`: case mapping.
- `Filenames`: `isOriginalFilename`.
- `Ranking`: `selectBestQualityAsset`.
- `Ids`: `truncateID`.
- `Gateway`: the status codes that count as success.
- `Configuration`: `validateConfig`.
- `AlbumSync`: `synchronizeAlbums`.
- `Deletion`: `autoDeleteDuplicates`.
- `Groups`: `processDuplicateGroup`.

Where the code and its comments or documentation disagree, the model
follows the code:

- **The date tie-break applies across originality classes.** The comment at
  main.go:406 says the creation date decides only when both names are
  original or both are camera-generated. The code at main.go:405 applies
  the date rule whenever the originality rule did not fire. So an earlier
  camera-named copy displaces an original-named best of equal size, and the
  result then depends on the map's visiting order.
  `Ranking.DateRuleOverridesOriginality` shows both orders.
- **An absent creation date counts as the earliest.** A missing date decodes
  to Go's zero time. That is before every real date, so the undated copy
  wins the date rule (`Ranking.MissingDateCountsAsEarliest`). The rule is
  not "undated copies never win".
- **Album synchronization never fails.** `synchronizeAlbums` always returns
  a nil error (main.go:303), so the "album synchronization failed" branch
  (main.go:217-219) is unreachable. `AlbumSync.SynchronizeAlbums` returns a
  plain plan, with no error case.
- **The "no duplicates to delete" exit is never taken.** With at least two
  fetched assets and a best one among them, something is always left to
  delete (`Deletion.NothingToDeleteUnreachable`). The exit at main.go:348-351 is
  still modelled, for fidelity.

## Model

| member | source | states |
|---|---|---|
| Filenames.IsOriginalFilename | main.go:416-427 | A name is original exactly when, after upper-casing, it starts with none of IMG_, DSC_, DSCN, P_, PHOTO_, VID_; the prefix test is stated per character against the listed prefixes, independent of the loop that tries them |
| Filenames.MatchesAnyPrefix | main.go:420-424 | The prefix loop answers true exactly when some prefix of the list is a prefix of the upper-cased name |
| Filenames.UpperPrefix | main.go:417-421 | Testing a prefix on the upper-cased string is the same as comparing each character's upper case with the prefix |
| Filenames.CaseDoesNotMatter | main.go:417 | Two names with the same upper-case form are classified alike, so "img_" is rejected like "IMG_" |
| Filenames.ShortNamesAreOriginal | main.go:416-427 | The empty name and every one-character name are original, since no prefix fits |
| Filenames.VacationYearIsOriginal | main_test.go:163 | "vacation_2023.jpg" is original |
| Filenames.CameraExamples | main_test.go:164-168 | "IMG_1234.jpg", "DSC_5678.jpg", "DSCN0001.jpg", "VID_20230101.mp4" and lower-case "img_1234.jpg" are camera-generated |
| Filenames.CustomNamesAreOriginal | main_test.go:169-170 | "my_photo.jpg" and "2023-01-01_photo.jpg" are original |
| Filenames.PhotoIsOriginal | main_test.go:87 | "photo.jpg" is original although "PH" opens the prefix PHOTO_ |
| Filenames.ImageIsOriginal | main_test.go:135 | "image.jpg" is original although "IM" opens the prefix IMG_ |
| Filenames.VacationIsOriginal | main_test.go:114 | "vacation.jpg" is original |
| Ascii.EqualFoldIsLowerEquality | main.go:362 | Case-insensitive equality holds exactly when the two lower-cased strings are equal |
| Ranking.ScanFacts | main.go:389-410 | Invariant of the pass: either no eligible candidate has been seen and the state is the initial ("", -1), or the state holds an eligible candidate of the prefix whose size bounds every eligible size seen |
| Ranking.SelectBestQualityAsset | main.go:386-413 | The answer is "" when no candidate has EXIF data (with a non-negative size); otherwise, with no empty key, it is the key of an eligible candidate whose size is at least every eligible size; candidates without EXIF data are never chosen |
| Ranking.LargestSizeWins | main.go:396-399 | A candidate strictly larger than every other eligible one is chosen, whatever its name, date or position |
| Ranking.OriginalKept | main.go:400-404 | Prefix invariant: when all candidates of the largest size share one time, the held candidate of that size is original unless none seen so far is |
| Ranking.PrefixKeepsSharedTime | main.go:390-410 | Dropping the last visited candidate keeps the originality invariant's assumptions: non-empty keys, no eligible size above the maximum, and one creation time at that size |
| Ranking.OriginalStepTaken | main.go:400-404 | The originality invariant survives a step in which the visited candidate displaces the held one |
| Ranking.OriginalStepKept | main.go:400-404 | The originality invariant survives a step in which the held candidate stays |
| Ranking.SharedTimePrefersOriginal | main.go:400-404 | Among largest candidates sharing one creation time, an original name is chosen whenever one exists, in every visiting order |
| Ranking.EarliestKept | main.go:400-408 | Prefix invariant: when all largest candidates are in one originality class, the held one is the first visited with the earliest time |
| Ranking.EarliestStepTaken | main.go:405-408 | The earliest-first invariant survives a step in which the visited candidate displaces the held one |
| Ranking.EarliestStepKept | main.go:405-408 | The earliest-first invariant survives a step in which the held candidate stays |
| Ranking.SameClassPrefersEarliest | main.go:400-408 | Among largest candidates all original or all camera-named, the chosen one has the minimal creation time, and among equal times the first visited wins (strict Before) |
| Ranking.DateRuleOverridesOriginality | main.go:403-408 | An earlier camera-named copy displaces an original-named best of equal size visited before it, while in the other order the original is kept |
| Ranking.MissingDateCountsAsEarliest | main.go:405 | An undated candidate (Go's zero time) beats a dated one of equal size and class in both orders |
| Ranking.LargerFileExample | main_test.go:83-101 | Of two candidates of 1000000 and 2000000 bytes, the larger wins in both visiting orders |
| Ranking.OriginalNameExample | main_test.go:103-121 | At equal size, "vacation.jpg" beats "IMG_1234.jpg" in both orders |
| Ranking.EarlierDateExample | main_test.go:123-142 | At equal size with two original names, the one created on 2023-01-01 beats the one of 2023-01-02 in both orders |
| Ids.TruncateId | main.go:641-646 | The result is the prefix of the identifier of length min(8, its length) |
| Ids.TruncateIdExamples | main_test.go:440-442 | A 16-character id gives its first 8, a 5-character id is unchanged, an 8-character id is unchanged |
| Gateway.AddStatuses | main.go:572 | An album write counts as done only on status 200 |
| Gateway.DeleteStatuses | main.go:615 | A delete counts as done exactly on status 200 or 204; 204 counts for a delete but not for an album write; a transport failure counts for neither |
| Configuration.ValidateConfig | main.go:192-204 | Fails exactly when the URL or the API key is empty, reporting the URL first; on success removes one trailing slash from the URL, if any, and leaves every other setting unchanged |
| Configuration.OneSlashRemoved | main.go:201 | Only one slash is removed: "http://h//" becomes "http://h/" and "/" becomes "" |
| Configuration.ValidateConfigExamples | main_test.go:28-58 | A valid configuration passes, a missing URL or API key fails, and a trailing slash is removed |
| Fetches.Collect | main.go:243-250 | The map built by a per-asset fetch loop has a key exactly for the assets with a successful fetch, and each value is the answer of the last successful fetch of that asset, so a later success overwrites an earlier one |
| AlbumSync.ReportedAlbums | main.go:243-254 | An album is known exactly when some successful album request listed it |
| AlbumSync.MissingFrom | main.go:274-284 | An album's batch holds exactly the group's assets not listed as members of it, assets with no listing included |
| AlbumSync.BatchOccurrences | main.go:274-284 | Each such asset occurs in the batch as often as in the group, so the batch size is fixed, and a group without repeats gives a batch without repeats |
| AlbumSync.Reconcile | main.go:269-301 | Every write goes to a visited album and carries that album's non-empty batch; nothing is written in preview mode; the count sums each album's credited batch |
| AlbumSync.ReconcileCovers | main.go:269-301 | Outside preview mode, every visited album with a non-empty batch is written |
| AlbumSync.ReconcileWritesOnce | main.go:270 | When the visiting order has no repeats, no album is written twice |
| AlbumSync.SynchronizeAlbums | main.go:238-304 | Writes go only to albums some successful request reported, each carrying exactly its batch, one per album with a non-empty batch, none in preview mode; the count is the sum of batch sizes in preview mode and, otherwise, the sum over albums whose write was answered 200 |
| AlbumSync.SynchronizeCovers | main.go:270-286 | Outside preview mode, every reported album with a non-empty batch receives a write carrying exactly that batch |
| AlbumSync.CreditedSum | main.go:287-299 | The credited count is the sum of batch sizes in preview mode and the sum over accepted writes otherwise |
| AlbumSync.WritesCharacterized | main.go:269-301 | A write is issued exactly when preview mode is off and it carries a reported album with its non-empty batch |
| AlbumSync.CountIgnoresOrder | main.go:270 | Two visiting orders of the album map give the same count and the same set of writes; only the order of the writes follows the visiting order |
| AlbumSync.UnlistedAssetJoinsEveryBatch | main.go:245-247 | An asset whose album request failed is in the batch of every album |
| AlbumSync.WritesIgnoreResponses | main.go:292-297 | The writes issued do not depend on how the gateway answers them; a rejected write does not stop later albums |
| AlbumSync.NothingMissing | main.go:274-284 | When every request succeeded and all assets list the same albums, every reported album's batch is empty |
| AlbumSync.AlreadySynchronized | main.go:269-303 | In the same situation nothing is written and the count is 0 |
| AlbumSync.NothingToReconcile | main.go:269-301 | The album loop over albums with empty batches writes nothing and counts 0 |
| AlbumSync.OneMissingAssetExample | main.go:238-304 | Asset A in album X and asset B in none: one write adds B to X, and the count is 1 when accepted |
| AlbumSync.OneMissingReconcile | main.go:269-301 | The album loop of that example issues the single write and counts 1 |
| Fetches.CollectedKeys | main.go:311-319 | The keys of the map a fetch loop builds are exactly the assets with at least one successful fetch |
| Deletion.PlanDeletion | main.go:321-381 | The step stops without error for too few details exactly when fewer than two assets were fetched; it fails exactly when the ranker finds no best asset; otherwise, when deleting, the best is the ranker's choice and one of the fetched assets, the delete set is exactly the fetched assets other than the best, without repeats, preview mode sends no delete request, deletion went ahead only with --yes, --dry-run or a yes answer, and the deleted assets are exactly the requests answered 200 or 204; a stop for an unreadable or negative answer happens only when confirmation was asked for and not given |
| Deletion.AutoDeleteDuplicates | main.go:307-382 | The step stops without error for too few details exactly when fewer than two distinct assets had a successful details request, in particular when none did; when it deletes, the best asset and every slated asset had their details fetched, the slated assets are exactly the fetched ones other than the best, and no delete request names the best or an unfetched asset |
| Deletion.AffirmativeAnswers | main.go:362 | An answer confirms exactly when its lower-case form is "y" or "yes" |
| Deletion.NothingToDeleteUnreachable | main.go:348-351 | The "no duplicates to delete" exit is never taken: with two or more fetched assets and a best one, something is always slated |
| Deletion.ConfirmationDecides | main.go:353-366 | With at least two fetched assets and no error, deletion proceeds exactly when --yes or --dry-run is given or the answer confirms |
| Deletion.SomethingElseSlated | main.go:341-351 | With two or more fetched assets, leaving out the best one leaves something to delete |
| Deletion.DryRunPreviewsDeletion | main.go:368-378 | Preview mode slates the same assets as a confirmed live run and sends no delete request |
| Deletion.FailsOnlyWithoutMetadata | main.go:321-330 | With no empty asset id, the step fails exactly when two or more assets were fetched and none has usable EXIF size data |
| Groups.ProcessDuplicateGroup | main.go:207-235 | A group of fewer than two assets is skipped with no sync and no deletion; otherwise albums are synchronized, deletion runs exactly when enabled, and the group fails exactly when deletion fails |
| Groups.CallLayout | main.go:213-232 | In a processed group's requests, all album writes come first and every later request is a delete from the deletion plan |
| Groups.GroupCalls | main.go:207-235 | No album write follows a delete; preview mode sends nothing; a delete is sent only with automatic deletion on and preview off, never for the best asset and never for an asset whose details were not fetched |
| Groups.SyncIndependentOfDeletion | main.go:213-232 | Turning automatic deletion on or off does not change the album synchronization |

## Left out

- HTTP and JSON plumbing are not modelled: `getDuplicates`, `getAlbumsForAsset`, `getAssetDetails`, building the requests in `addAssetsToAlbum` and `deleteAsset`, and the HTTP client. Each call is an input instead: an optional answer per asset, or a status code per write or delete.
- `main`, `parseFlags`, the usage text and `os.Exit` are command-line glue and are not modelled. So is the loop over all groups in `main`.
- Logging and the verbose display loops (main.go:257-266, 333-338) produce output only.
- Reading the confirmation with `fmt.Scanln` becomes the input `OperatorInput`: either a failed read or one word.
- Case mapping is ASCII only. Go's `strings.ToUpper` and `strings.EqualFold` also map non-ASCII letters.
- Times are natural numbers on one clock, with Go's zero time as 0. Time zones, parsing, and instants before the zero time are not modelled.
- Sizes and counts are unbounded integers. The source's `int64` and `int` never overflow on realistic inputs.
- Deletion.PlanDeletion: one visiting order stands for both loops over the details map (the ranker's loop at main.go:390-410 and the delete-set loop at main.go:342-346). In Go each loop may visit the map in its own order. Only the choice of the best asset depends on that order. Once the best is fixed, the delete set is the same whatever order the second loop uses.
- Ranking.SelectBestQualityAsset: the result is only said to be non-empty when no candidate's key is "". An asset with the empty id would be indistinguishable from "no best asset", exactly as in the source.
- Ids.TruncateId: identifiers are assumed to be ASCII. The source slices the first eight bytes (main.go:643); the model takes the first eight characters, which agree only for ASCII ids such as the server's UUIDs.
- AlbumSync.MissingFrom: the order of a batch is not stated in its contract or in AlbumSync.BatchOccurrences. Membership, the number of occurrences of each asset and the absence of repeats are; the order of assets inside one add request does not change what the server stores.
- The width and height in the EXIF data are carried but never compared. The source only displays them.
