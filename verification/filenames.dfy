/** The filename classifier: decides whether a name was chosen by a person
    ("original") or generated by a camera or phone. */
module Filenames {
  import opened Ascii

  /** Name prefixes of camera-generated files, in upper case, in the order
      the classifier tries them (main.go:418). */
  const CameraPrefixes: seq<string> := ["IMG_", "DSC_", "DSCN", "P_", "PHOTO_", "VID_"]

  predicate HasPrefix(s: string, prefix: string) {
    |prefix| <= |s| && s[..|prefix|] == prefix
  }

  /** True when `name` begins with `prefix` once its letters are put in upper
      case; stated character by character, without building the upper-case string. */
  predicate StartsIgnoringCase(name: string, prefix: string) {
    && |prefix| <= |name|
    && forall i | 0 <= i < |prefix| :: UpperChar(name[i]) == prefix[i]
  }

  /** The prefix loop of the classifier: true as soon as one prefix matches. */
  function MatchesAnyPrefix(upper: string, prefixes: seq<string>): (b: bool)
    ensures b <==> exists k | 0 <= k < |prefixes| :: HasPrefix(upper, prefixes[k])
    decreases |prefixes|
  {
    if |prefixes| == 0 then false
    else if HasPrefix(upper, prefixes[0]) then true
    else
      var rest := MatchesAnyPrefix(upper, prefixes[1..]);
      assert forall k | 1 <= k < |prefixes| :: prefixes[1..][k-1] == prefixes[k];
      rest
  }

  lemma UpperPrefix(name: string, prefix: string)
    ensures HasPrefix(ToUpper(name), prefix) <==> StartsIgnoringCase(name, prefix)
  {
    if StartsIgnoringCase(name, prefix) {
      assert ToUpper(name)[..|prefix|] == prefix;
    }
    if HasPrefix(ToUpper(name), prefix) {
      forall i | 0 <= i < |prefix|
        ensures UpperChar(name[i]) == prefix[i]
      {
        assert ToUpper(name)[..|prefix|][i] == prefix[i];
      }
    }
  }

  /** A name is original exactly when it starts, in any mixture of upper and
      lower case, with none of the camera prefixes. */
  function IsOriginalFilename(filename: string): (r: bool)
    ensures r <==> forall k | 0 <= k < |CameraPrefixes| :: !StartsIgnoringCase(filename, CameraPrefixes[k])
  {
    var upper := ToUpper(filename);
    forall k | 0 <= k < |CameraPrefixes| ensures HasPrefix(upper, CameraPrefixes[k]) <==> StartsIgnoringCase(filename, CameraPrefixes[k]) {
      UpperPrefix(filename, CameraPrefixes[k]);
    }
    !MatchesAnyPrefix(upper, CameraPrefixes)
  }

  /** Names that differ only in the case of their letters are classified alike. */
  lemma CaseDoesNotMatter(a: string, b: string)
    requires ToUpper(a) == ToUpper(b)
    ensures IsOriginalFilename(a) == IsOriginalFilename(b)
  {
    forall k | 0 <= k < |CameraPrefixes|
      ensures StartsIgnoringCase(a, CameraPrefixes[k]) == StartsIgnoringCase(b, CameraPrefixes[k])
    {
      UpperPrefix(a, CameraPrefixes[k]);
      UpperPrefix(b, CameraPrefixes[k]);
    }
  }

  /** The empty name, and any name shorter than every prefix, is original. */
  lemma ShortNamesAreOriginal(name: string)
    requires |name| < 2
    ensures IsOriginalFilename(name)
  {
  }

  /** A name whose first two letters, upper-cased, begin no camera prefix is original. */
  lemma OriginalByOpening(name: string)
    requires |name| >= 2
    requires forall k | 0 <= k < |CameraPrefixes| :: UpperChar(name[0]) != CameraPrefixes[k][0] || UpperChar(name[1]) != CameraPrefixes[k][1]
    ensures IsOriginalFilename(name)
  {
  }

  /** A name is original when, for each camera prefix k, position at[k]
      of the prefix is missing from the name or differs from it. */
  lemma OriginalByMismatch(name: string, at: seq<nat>)
    requires |at| == |CameraPrefixes|
    requires forall k | 0 <= k < |at| ::
      at[k] < |CameraPrefixes[k]| && (at[k] >= |name| || UpperChar(name[at[k]]) != CameraPrefixes[k][at[k]])
    ensures IsOriginalFilename(name)
  {
  }

  /** Names the repository's tests expect to be original (main_test.go:163, 169-170),
      one lemma each to keep every proof small. */
  lemma VacationYearIsOriginal()
    ensures IsOriginalFilename("vacation_2023.jpg")
  {
    assert UpperChar('v') == 'V' && UpperChar('a') == 'A';
    OriginalByOpening("vacation_2023.jpg");
  }

  lemma CustomNamesAreOriginal()
    ensures IsOriginalFilename("my_photo.jpg")
    ensures IsOriginalFilename("2023-01-01_photo.jpg")
  {
    assert UpperChar('m') == 'M';
    OriginalByOpening("my_photo.jpg");
    assert UpperChar('2') == '2';
    OriginalByOpening("2023-01-01_photo.jpg");
  }

  /** Names the repository's tests expect to be camera-generated, lower case
      included (main_test.go:164-168). */
  lemma CameraExamples()
    ensures !IsOriginalFilename("IMG_1234.jpg")
    ensures !IsOriginalFilename("DSC_5678.jpg")
    ensures !IsOriginalFilename("DSCN0001.jpg")
    ensures !IsOriginalFilename("VID_20230101.mp4")
    ensures !IsOriginalFilename("img_1234.jpg")
  {
    assert StartsIgnoringCase("IMG_1234.jpg", CameraPrefixes[0]);
    assert StartsIgnoringCase("DSC_5678.jpg", CameraPrefixes[1]);
    assert StartsIgnoringCase("DSCN0001.jpg", CameraPrefixes[2]);
    assert StartsIgnoringCase("VID_20230101.mp4", CameraPrefixes[5]);
    assert StartsIgnoringCase("img_1234.jpg", CameraPrefixes[0]);
  }

  /** Names the ranking tests use (main_test.go:87, 127, 135), one lemma
      each to keep every proof small. */
  lemma PhotoIsOriginal()
    ensures IsOriginalFilename("photo.jpg")
  {
    OriginalByMismatch("photo.jpg", [0, 0, 0, 1, 5, 0]);
  }

  lemma ImageIsOriginal()
    ensures IsOriginalFilename("image.jpg")
  {
    OriginalByMismatch("image.jpg", [2, 0, 0, 0, 0, 0]);
  }

  lemma VacationIsOriginal()
    ensures IsOriginalFilename("vacation.jpg")
  {
    OriginalByOpening("vacation.jpg");
  }
}
