/**
 * `search_for_person`: the sample photos give a reference embedding, then
 * every image file of the search directory is scanned and a photo matches as
 * soon as one of its faces lies strictly closer than the threshold. The face
 * model and the embedding arithmetic are outside the model: each sample
 * reports whether it yielded a face, and each scanned face comes with its
 * distance to the reference.
 */
module Search {
  import opened Wrappers
  import opened Paths
  import Seqs

  /** What processing one sample image gave. */
  datatype Sample = SampleUnreadable | SampleNoFaces | SampleRaises | SampleFace

  /** What scanning one photo of the search directory gave. */
  datatype Scan = Unreadable | Raises | Faces(distances: seq<real>)

  /** How a search ends; only `Saved` creates the album directory and copies photos into it. */
  datatype SearchOutcome = NoReference | SearchDirNotFound | NoMatches | Saved(albumDir: string, photos: set<string>)

  /** Position of the first face strictly closer than `threshold`. */
  function FirstMatch(distances: seq<real>, threshold: real): (r: Option<nat>)
    ensures r.Some? ==>
      r.value < |distances| && distances[r.value] < threshold && forall j :: 0 <= j < r.value ==> distances[j] >= threshold
    ensures r.None? ==> forall j :: 0 <= j < |distances| ==> distances[j] >= threshold
  {
    if distances == [] then None
    else if distances[0] < threshold then Some(0)
    else
      match FirstMatch(distances[1..], threshold)
      case None => None
      case Some(k) => Some(k + 1)
  }

  /** A photo matches when some face's distance is strictly below the threshold. */
  predicate IsMatch(scan: Scan, threshold: real) {
    scan.Faces? && FirstMatch(scan.distances, threshold).Some?
  }

  /** Matching needs one face strictly below the threshold; a face exactly at it does not match. */
  lemma {:induction false} MatchIff(scan: Scan, threshold: real)
    ensures IsMatch(scan, threshold) <==> scan.Faces? && exists d :: d in scan.distances && d < threshold
  {
    if IsMatch(scan, threshold) {
      var k := FirstMatch(scan.distances, threshold).value;
      assert scan.distances[k] in scan.distances;
    }
    if scan.Faces? && exists d :: d in scan.distances && d < threshold {
      var d :| d in scan.distances && d < threshold;
      var i :| 0 <= i < |scan.distances| && scan.distances[i] == d;
    }
  }

  lemma {:induction false} ThresholdIsNotAMatch(threshold: real)
    ensures !IsMatch(Faces([threshold]), threshold)
  {
    assert FirstMatch([threshold], threshold).None?;
  }

  /**
   * The face loop with its `break`: whether the photo matched, and how many
   * faces were compared (up to and including the first match).
   */
  method MatchFaces(distances: seq<real>, threshold: real) returns (matched: bool, compared: nat)
    ensures matched <==> FirstMatch(distances, threshold).Some?
    ensures compared == if matched then FirstMatch(distances, threshold).value + 1 else |distances|
  {
    matched, compared := false, 0;
    while compared < |distances|
      invariant compared <= |distances|
      invariant forall j :: 0 <= j < compared ==> distances[j] >= threshold
    {
      if distances[compared] < threshold {
        matched := true;
        compared := compared + 1;
        return;
      }
      compared := compared + 1;
    }
  }

  /** The paths of the image files that match, joined below the search directory. */
  function MatchedPaths(dir: string, files: seq<DirEntry<Scan>>, threshold: real): set<string> {
    set i | 0 <= i < |files| && IsMatch(files[i].content, threshold) :: Join(dir, files[i].name)
  }

  /** The outcome of a search. */
  function SearchResult(samples: seq<Sample>, listing: Option<seq<DirEntry<Scan>>>, searchPath: string,
                        outputPath: string, albumName: string, threshold: real): SearchOutcome
  {
    if SampleFace !in samples then NoReference
    else
      match listing
      case None => SearchDirNotFound
      case Some(entries) =>
        var photos := MatchedPaths(searchPath, ImageEntries(entries), threshold);
        if photos == {} then NoMatches else Saved(Join(outputPath, albumName), photos)
  }

  /** Counts the samples that give a reference embedding. */
  method ReferenceCount(samples: seq<Sample>) returns (n: nat)
    ensures n == multiset(samples)[SampleFace]
  {
    n := 0;
    var i := 0;
    Seqs.TakeAll(samples);
    while i < |samples|
      invariant i <= |samples| && n == multiset(samples[..i])[SampleFace]
    {
      Seqs.TakeStep(samples, i);
      assert samples[..i + 1] == samples[..i] + [samples[i]];
      if samples[i] == SampleFace {
        n := n + 1;
      }
      i := i + 1;
    }
  }

  /** The body of the loop over the image files: whether this photo joins the matches. */
  method ScanPhoto(scan: Scan, threshold: real) returns (found: bool)
    ensures found == IsMatch(scan, threshold)
  {
    found := false;
    if scan.Faces? {
      var compared;
      found, compared := MatchFaces(scan.distances, threshold);
    }
  }

  lemma {:induction false} MatchedPathsStep(dir: string, files: seq<DirEntry<Scan>>, k: nat, threshold: real)
    requires k < |files|
    ensures MatchedPaths(dir, files[..k + 1], threshold) == MatchedPaths(dir, files[..k], threshold)
      + if IsMatch(files[k].content, threshold) then {Join(dir, files[k].name)} else {}
  {
    Seqs.TakeStep(files, k);
    var before, after := files[..k], files[..k + 1];
    forall p | p in MatchedPaths(dir, after, threshold)
      ensures p in MatchedPaths(dir, before, threshold) || (IsMatch(files[k].content, threshold) && p == Join(dir, files[k].name))
    {
      var i :| 0 <= i < k + 1 && IsMatch(after[i].content, threshold) && p == Join(dir, after[i].name);
      if i < k {
        assert before[i] == after[i];
      }
    }
    forall p | p in MatchedPaths(dir, before, threshold) ensures p in MatchedPaths(dir, after, threshold) {
      var i :| 0 <= i < k && IsMatch(before[i].content, threshold) && p == Join(dir, before[i].name);
      assert after[i] == before[i];
    }
  }

  /** `search_for_person`, with the directory listing and the scans given. */
  method SearchForPerson(samples: seq<Sample>, listing: Option<seq<DirEntry<Scan>>>, searchPath: string,
                         outputPath: string, albumName: string, threshold: real)
    returns (r: SearchOutcome)
    ensures r == SearchResult(samples, listing, searchPath, outputPath, albumName, threshold)
  {
    var references := ReferenceCount(samples);
    if references == 0 {
      return NoReference;
    }
    if listing.None? {
      return SearchDirNotFound;
    }
    var imageFiles := ImageEntries(listing.value);
    var matchedImagePaths: set<string> := {};
    var k := 0;
    while k < |imageFiles|
      invariant k <= |imageFiles|
      invariant matchedImagePaths == MatchedPaths(searchPath, imageFiles[..k], threshold)
    {
      var file := imageFiles[k];
      var found := ScanPhoto(file.content, threshold);
      MatchedPathsStep(searchPath, imageFiles, k, threshold);
      if found {
        matchedImagePaths := matchedImagePaths + {Join(searchPath, file.name)};
      }
      k := k + 1;
    }
    Seqs.TakeAll(imageFiles);
    if matchedImagePaths == {} {
      return NoMatches;
    }
    r := Saved(Join(outputPath, albumName), matchedImagePaths);
  }

  /** A photo is saved exactly when it is an image file of the listing and one of its faces matches. */
  lemma {:induction false} MatchedPathsIff(dir: string, entries: seq<DirEntry<Scan>>, threshold: real, p: string)
    ensures p in MatchedPaths(dir, ImageEntries(entries), threshold) <==>
      exists e :: e in entries && IsImageFile(e.name) && IsMatch(e.content, threshold) && p == Join(dir, e.name)
  {
    var files := ImageEntries(entries);
    ImageEntriesMembers(entries);
    if exists e :: e in entries && IsImageFile(e.name) && IsMatch(e.content, threshold) && p == Join(dir, e.name) {
      var e :| e in entries && IsImageFile(e.name) && IsMatch(e.content, threshold) && p == Join(dir, e.name);
      var i :| 0 <= i < |files| && files[i] == e;
    }
  }

  /**
   * An album is made exactly when a sample gave a face, the search directory
   * exists and some image file in it matches; without a usable sample
   * nothing is scanned.
   */
  lemma {:induction false} AlbumIff(samples: seq<Sample>, listing: Option<seq<DirEntry<Scan>>>, searchPath: string,
                 outputPath: string, albumName: string, threshold: real)
    ensures SearchResult(samples, listing, searchPath, outputPath, albumName, threshold).Saved? <==>
      SampleFace in samples && listing.Some?
      && exists e :: e in listing.value && IsImageFile(e.name) && IsMatch(e.content, threshold)
    ensures SampleFace !in samples ==> SearchResult(samples, listing, searchPath, outputPath, albumName, threshold) == NoReference
  {
    if SampleFace in samples && listing.Some? {
      var entries := listing.value;
      var photos := MatchedPaths(searchPath, ImageEntries(entries), threshold);
      if exists e :: e in entries && IsImageFile(e.name) && IsMatch(e.content, threshold) {
        var e :| e in entries && IsImageFile(e.name) && IsMatch(e.content, threshold);
        MatchedPathsIff(searchPath, entries, threshold, Join(searchPath, e.name));
      } else if photos != {} {
        var p :| p in photos;
        MatchedPathsIff(searchPath, entries, threshold, p);
      }
    }
  }

  /**
   * The album name is used as given: an absolute name replaces the output
   * directory instead of naming a folder below it.
   */
  lemma {:induction false} AbsoluteAlbumName(samples: seq<Sample>, listing: Option<seq<DirEntry<Scan>>>, searchPath: string,
                          outputPath: string, albumName: string, threshold: real)
    requires |albumName| > 0 && albumName[0] == '/'
    requires SearchResult(samples, listing, searchPath, outputPath, albumName, threshold).Saved?
    ensures SearchResult(samples, listing, searchPath, outputPath, albumName, threshold).albumDir == albumName
  {
    JoinShape(outputPath, albumName);
  }
}
