/**
 * `DeleteCloudinaryImage.extractPublicId` of
 * `server/src/utils/deleteCloudinaryImage.ts`: the public id of a stored image,
 * read from its delivery URL by the regular expression
 * `/\/upload\/(?:v\d+\/)?([^\.]+)/`, written out here as the backtracking
 * search a JavaScript regular-expression engine performs.
 */
module Cloudinary {
  import opened Wrappers
  import opened Js

  const UploadMarker := "/upload/"

  /** The end of the run of digits that starts at `from` (`from` itself when there is none). */
  function DigitsEnd(s: string, from: nat): (e: nat)
    requires from <= |s|
    ensures from <= e <= |s|
    ensures forall k :: from <= k < e ==> IsDigit(s[k])
    ensures e == |s| || !IsDigit(s[e])
    decreases |s| - from
  {
    if from < |s| && IsDigit(s[from]) then DigitsEnd(s, from + 1) else from
  }

  /**
   * `(?:v\d+\/)` tried at `j`: where the group would end. Greedy `\d+` takes
   * every digit, and giving digits back cannot help, since `\/` would then
   * face a digit; so the group matches only with the whole run.
   */
  function VersionEnd(s: string, j: nat): (r: Option<nat>)
    requires j <= |s|
    ensures r.Some? ==> j + 3 <= r.value <= |s| && s[j] == 'v' && s[r.value - 1] == '/'
    ensures r.Some? ==> forall k :: j + 1 <= k < r.value - 1 ==> IsDigit(s[k])
    ensures r.Some? <==> j < |s| && s[j] == 'v' && j + 1 < |s| && IsDigit(s[j + 1])
                         && DigitsEnd(s, j + 1) < |s| && s[DigitsEnd(s, j + 1)] == '/'
  {
    if j < |s| && s[j] == 'v' && j + 1 < |s| && IsDigit(s[j + 1]) then
      var e := DigitsEnd(s, j + 1);
      if e < |s| && s[e] == '/' then Some(e + 1) else None
    else None
  }

  /** `[^\.]+` from `k`, greedy: the position of the next '.' or the end. */
  function RunEnd(s: string, k: nat): (e: nat)
    requires k <= |s|
    ensures k <= e <= |s|
    ensures forall m :: k <= m < e ==> s[m] != '.'
    ensures e == |s| || s[e] == '.'
    decreases |s| - k
  {
    if k < |s| && s[k] != '.' then RunEnd(s, k + 1) else k
  }

  /** Where the capture may start for a marker at `i`: after the version group if the rest then matches, else right after the marker. */
  function CaptureStart(s: string, i: nat): (k: nat)
    requires OccursAt(s, UploadMarker, i)
    ensures i + |UploadMarker| <= k <= |s|
    ensures k == i + |UploadMarker| || VersionEnd(s, i + |UploadMarker|) == Some(k)
    ensures k == i + |UploadMarker| || (k < |s| && s[k] != '.')
  {
    var j := i + |UploadMarker|;
    match VersionEnd(s, j)
    case Some(k) => if k < |s| && s[k] != '.' then k else j
    case None => j
  }

  /** The regular expression matches with its `/upload/` at `i`. */
  predicate MatchesAt(s: string, i: int) {
    OccursAt(s, UploadMarker, i) && i + |UploadMarker| < |s| && s[i + |UploadMarker|] != '.'
  }

  /** The capture of the match whose marker is at `i`. */
  function CaptureAt(s: string, i: nat): (c: string)
    requires MatchesAt(s, i)
    ensures c != [] && '.' !in c
  {
    var k := CaptureStart(s, i);
    var e := RunEnd(s, k);
    assert s[k] != '.';
    assert forall m :: 0 <= m < |s[k..e]| ==> s[k..e][m] == s[k + m];
    s[k..e]
  }

  /** The leftmost position from `from` at which the expression matches. */
  function FirstMatch(s: string, from: nat): (r: Option<nat>)
    ensures r.Some? ==> from <= r.value && MatchesAt(s, r.value)
    ensures r.Some? ==> forall i :: from <= i < r.value ==> !MatchesAt(s, i)
    ensures r.None? ==> forall i :: from <= i ==> !MatchesAt(s, i)
    decreases |s| - from
  {
    if from >= |s| then None
    else if MatchesAt(s, from) then Some(from)
    else FirstMatch(s, from + 1)
  }

  /** `extractPublicId(url)`: the first capture group of the leftmost match, or null. */
  function ExtractPublicId(url: string): (r: Option<string>)
    ensures r.Some? ==> r.value != "" && '.' !in r.value
  {
    match FirstMatch(url, 0)
    case None => None
    case Some(i) => Some(CaptureAt(url, i))
  }

  /** There is an id exactly when the expression matches somewhere, and it is the capture of the leftmost match. */
  lemma ExtractPublicIdLeftmost(url: string)
    ensures ExtractPublicId(url).None? <==> forall i :: !MatchesAt(url, i)
    ensures ExtractPublicId(url).Some? ==>
      exists i :: MatchesAt(url, i) && ExtractPublicId(url).value == CaptureAt(url, i)
                  && forall h :: 0 <= h < i ==> !MatchesAt(url, h)
  {
    match FirstMatch(url, 0)
    case None =>
    case Some(i) =>
      assert MatchesAt(url, i) && ExtractPublicId(url).value == CaptureAt(url, i);
  }

  /**
   * `url[k..e]` is a capture the expression can make with its marker ending
   * at `j`: a run ending at a '.' or the end, starting at `j` or right after a
   * `v<digits>/` segment that starts at `j`.
   */
  predicate CaptureSpan(url: string, j: nat, k: nat, e: nat) {
    && j <= k < e <= |url|
    && (e == |url| || url[e] == '.')
    && (k == j || (url[j] == 'v' && url[k - 1] == '/' && forall m :: j + 1 <= m < k - 1 ==> IsDigit(url[m])))
  }

  /**
   * The result is the text after the marker, less a `v<digits>/` segment
   * that is followed by something other than '.', up to the next '.'.
   */
  lemma PublicIdShape(url: string, i: nat)
    requires MatchesAt(url, i) && forall h :: 0 <= h < i ==> !MatchesAt(url, h)
    ensures var r := ExtractPublicId(url);
      r.Some? && exists k: nat, e: nat :: CaptureSpan(url, i + |UploadMarker|, k, e) && r.value == url[k..e]
  {
    LeftmostMatchIsExtracted(url, i);
    var k := CaptureStart(url, i);
    var e := RunEnd(url, k);
    CaptureShape(url, i, k, e);
    assert CaptureSpan(url, i + |UploadMarker|, k, e);
  }

  /** The capture of the match at `i` spans from its start to the end of the run. */
  lemma CaptureShape(url: string, i: nat, k: nat, e: nat)
    requires MatchesAt(url, i) && k == CaptureStart(url, i) && e == RunEnd(url, k)
    ensures CaptureSpan(url, i + |UploadMarker|, k, e) && CaptureAt(url, i) == url[k..e]
  {
    assert url[k] != '.';
  }

  /** The leftmost match is the one whose capture is returned. */
  lemma LeftmostMatchIsExtracted(url: string, i: nat)
    requires MatchesAt(url, i) && forall h :: 0 <= h < i ==> !MatchesAt(url, h)
    ensures ExtractPublicId(url) == Some(CaptureAt(url, i))
  {
    assert FirstMatch(url, 0) == Some(i);
  }

  /** A version segment followed by a name is skipped: the id starts after it. */
  lemma VersionSkipped(url: string, i: nat, k: nat)
    requires MatchesAt(url, i) && forall h :: 0 <= h < i ==> !MatchesAt(url, h)
    requires VersionEnd(url, i + |UploadMarker|) == Some(k) && k < |url| && url[k] != '.'
    ensures ExtractPublicId(url) == Some(url[k..RunEnd(url, k)])
  {
    assert FirstMatch(url, 0) == Some(i);
  }

  /** A typical delivery URL: the version and the extension are dropped, the folders kept. */
  lemma TypicalUrl(url: string)
    requires url == "/upload/v12/shop/a.png"
    ensures ExtractPublicId(url) == Some("shop/a")
  {
    TypicalUrlScan(url);
    VersionSkipped(url, 0, 12);
    assert url[12..18] == "shop/a";
  }

  /** Where the scans stop in the typical URL. */
  lemma TypicalUrlScan(url: string)
    requires url == "/upload/v12/shop/a.png"
    ensures MatchesAt(url, 0) && VersionEnd(url, 8) == Some(12) && RunEnd(url, 12) == 18
  {
    assert url[0..8] == UploadMarker;
    assert DigitsEnd(url, 11) == 11;
    assert DigitsEnd(url, 9) == 11;
    assert RunEnd(url, 18) == 18;
  }

  /** A version segment followed directly by '.' is kept: the engine backtracks out of the optional group. */
  lemma VersionKeptBeforeDot()
    ensures ExtractPublicId("/upload/v1/.png") == Some("v1/")
  {
    var s := "/upload/v1/.png";
    assert MatchesAt(s, 0) by {
      assert s[0..8] == UploadMarker;
    }
    assert FirstMatch(s, 0) == Some(0);
    assert DigitsEnd(s, 9) == 10;
    assert VersionEnd(s, 8) == Some(11);
    assert CaptureStart(s, 0) == 8;
    assert RunEnd(s, 8) == 11;
    assert s[8..11] == "v1/";
  }
}
