# PhotoProcessor in Dafny

A model of the processing core of the photo organiser, `PhotoProcessor` in
`photo_processor.py`. It reads a folder of photos and finds the faces in
them. It groups the faces into people and lets the user correct the groups.
It then saves one album per person. It can also search a folder for one
person given a few sample photos. The model covers, module by module:

- `Paths`: which directory entries count as image files, `os.path.splitext`,
  `os.path.join` and `os.path.basename`.
- `Timestamps`: when a photo was taken. The EXIF date keys are tried in
  order. The text goes through `strptime("%Y:%m:%d %H:%M:%S")` and then to
  ISO text. The fallback is the file's modification time, and then
  "unknown". `Utf8` models the strict decoding of byte values, and
  `Decimal` the decimal text of integers.
- `Extraction`: `extract_faces` with its running face id counter. Crop
  files are named `face_<id>.jpg`. Each file is handled in its own `try`.
  `save_face_data` adds the web locator of each crop.
- `Clustering`: the cluster count of `cluster_faces`, and
  `generate_cluster_ui_data`. That one groups the faces by label in order
  of first appearance and builds the default names and the assignments
  snapshot.
- `Albums`: `save_final_albums`. Names are sanitised into directory names,
  the face map is built, and photo copies are planned per cluster. The loop
  stops at the first `KeyError`.
- `Search`: `search_for_person`. A usable sample photo is needed. Then the
  image files are scanned, and a photo matches at the first face strictly
  closer than the threshold (1.2 by default).

The operations that loop in the source are methods with loop invariants.
Each is proved equal to a function that specifies it, and the properties
are lemmas about those functions. `PhotoProcessor` holds no state that
changes after construction, so its operations take the paths they use as
parameters and no class is needed. The face detector, the image decoder,
EXIF reading, DBSCAN and the embedding arithmetic are outside the model.
What they produce is an input: a detection per file, a map of EXIF values,
a label per face, and a distance per scanned face.

Where the code behaves in ways a reader may not expect, the model follows
the code:

- A truthy EXIF value that is neither text nor bytes reaches `strptime`.
  The `TypeError` it raises is not caught by `except ValueError`, and it
  escapes `_determine_photo_timestamp`. `extract_faces` then skips the file
  (`Timestamps.DetermineTimestamp` returns `None`).
- `extract_faces` returns early when the input directory is missing, so no
  face cache is written in that case (`Extraction.ExtractFaces`).
- The default album name is built before the name is looked up. A cluster
  without `cluster_id` therefore fails even when it has a name
  (`Albums.AlbumName`).
- The album directory is created before the face ids are looked up. A
  missing face id fails that cluster after its directory exists, and every
  later cluster is left unsaved (`Albums.UnknownFaceAfterMakeDir`).
- A later cache record with the same face id replaces an earlier one in the
  face map (`Albums.FaceMapLastWins`).
- The search album name is used without sanitising. An absolute name
  replaces the output directory (`Search.AbsoluteAlbumName`).

## Model

| member | source | states |
|---|---|---|
| Paths.Basename | photo_processor.py:156 | the base name is the text after the last `/`: it holds no `/`, ends the path, and is either the whole path or preceded by a `/` |
| Paths.SplitExtParts | photo_processor.py:97 | root and extension put back together give the path; an extension is a dot followed by text with no dot and no `/` |
| Paths.Lower | photo_processor.py:97 | lower-casing keeps the length and maps each character on its own |
| Paths.ImageFileIff | photo_processor.py:91-98 | a name is an image file exactly when the text from its last dot, lower-cased, is one of the five extensions and some character before that dot is not a dot |
| Paths.LeadingDotSkipped | photo_processor.py:97 | a hidden file such as `.jpg` has no extension and is not an image file |
| Paths.UpperCaseKept | photo_processor.py:97 | `a.JPG`, with an upper-case extension, is an image file |
| Paths.ExtensionCaseIgnored | photo_processor.py:97 | for every name, lower-casing it does not change whether it is an image file |
| Paths.ImageEntriesMembers | photo_processor.py:94-98 | the filtered listing holds exactly the entries whose names are image files |
| Paths.JoinShape | photo_processor.py:95 | joining with an absolute name gives that name; otherwise the result starts with the directory and ends with the name |
| Paths.JoinInjective | photo_processor.py:127 | one directory joined with two different relative names gives two different paths |
| Paths.BasenameOfJoin | photo_processor.py:156 | the base name of a directory joined with a plain name is that name |
| Decimal.NatToString | photo_processor.py:126 | the decimal text of a count is digits only, without a leading zero |
| Decimal.NatToStringValue | photo_processor.py:126 | the decimal text reads back as the number |
| Decimal.IntToStringInjective | photo_processor.py:263 | different cluster ids give different decimal texts |
| Utf8.DecodeEncode | photo_processor.py:55-59 | decoding the UTF-8 encoding of any text gives that text back, so no text value is lost to the decoding step |
| Timestamps.ParseExifDateTime | photo_processor.py:61-62 | a parsed date and time is a valid calendar date and time of day |
| Timestamps.ParseExifText | photo_processor.py:61-62 | every valid date and time written in EXIF form parses back to itself |
| Timestamps.IsoReplacesSeparators | photo_processor.py:63 | the ISO text is the EXIF text with `-` for the date colons and `T` for the space, all 19 characters otherwise equal |
| Timestamps.TryKeyOutcome | photo_processor.py:48-65 | a key raises `TypeError` exactly when its value is truthy and neither text nor bytes; it gives a date exactly when it is present, its value is non-empty text or non-empty bytes that decode as UTF-8, and that text parses, the date being the parse result; every other key (missing, empty, undecodable, unparseable, falsy) is skipped |
| Timestamps.FoundAtKey | photo_processor.py:47-65 | when the first key that is not skipped holds a date as cameras write it, as text or as UTF-8 bytes, the scan returns that date in ISO form |
| Timestamps.FirstDecisiveAt | photo_processor.py:47-66 | the scan stops at the first key that is not skipped, giving its ISO text or its exception, and gives nothing when every key is skipped |
| Timestamps.ReadExifTimestamp | photo_processor.py:39-66 | the loop over the keys with `continue` and early return computes the EXIF lookup |
| Timestamps.StampSources | photo_processor.py:69-81 | the source is EXIF exactly when the EXIF scan finds a value; the time is missing exactly when the source is unknown, which happens only without a modification time; a file-modified time is the UTC ISO text with `+00:00`; no result exactly when the EXIF scan raises |
| Timestamps.ExifWins | photo_processor.py:71-73 | a found EXIF time is used whatever the modification time |
| Timestamps.TextOnlyNeverRaises | photo_processor.py:69-81 | when every EXIF value is text or bytes, a timestamp is always determined |
| Extraction.FaceFileNameRelative | photo_processor.py:126 | a crop file name is non-empty and holds no `/` |
| Extraction.CropPathsDistinct | photo_processor.py:126-127 | two face ids never share a crop file |
| Extraction.FileRecordsIds | photo_processor.py:121-140 | within one file, the records number the faces from the counter on, in detector order, each carrying its own crop path, the file's path and timestamp, and the face's embedding |
| Extraction.FileRecordsCount | photo_processor.py:121-140 | without crop failures a file gives one record per detected face |
| Extraction.IdsFromAppend | photo_processor.py:105-140 | id runs that meet join into one run |
| Extraction.NumberedIds | photo_processor.py:105-140 | across all files the ids are 0, 1, 2, ... in discovery order, each with crop `face_<id>.jpg` |
| Extraction.FacelessFileAddsNothing | photo_processor.py:109-116 | an unreadable file or one without faces adds no record and uses no id |
| Extraction.NumberedCount | photo_processor.py:105-140 | when every readable file is fully processed there is one record per detected face |
| Extraction.OneRecordPerFace | photo_processor.py:105-142 | when no timestamp lookup and no crop write raises, the number of records is the number of faces found |
| Extraction.WriteCrops | photo_processor.py:121-140 | the face loop gives one record per face with consecutive ids, up to the first crop write that raises |
| Extraction.ExtractFile | photo_processor.py:107-142 | the per-file `try` gives no record when the timestamp lookup raises or the image is unreadable, and otherwise the file's crop records |
| Extraction.ExtractAll | photo_processor.py:105-142 | the loop over the image files gives the records of every file in listing order with one shared counter |
| Extraction.ExtractFaces | photo_processor.py:86-146 | a missing directory gives no faces and writes no cache; otherwise the image files are processed, ids run from 0, and the cache receives the same records, record `i` carrying the locator of `face_<i>.jpg` |
| Extraction.CacheUrls | photo_processor.py:148-164 | for records numbered from an id on, the cache holds one record per face in order, record `i` with the locator `/output_albums/.cache/faces/face_<id + i>.jpg` and every other field as extracted, and no two records share a locator |
| Clustering.ClusterCount | photo_processor.py:174-176 | the count is the number of distinct labels other than noise (-1) |
| Clustering.DefaultName | photo_processor.py:191-194 | the default name is `Unidentified` exactly for the noise label |
| Clustering.DefaultNamesDistinct | photo_processor.py:192-194 | different labels get different default names |
| Clustering.UiUrlFreshOrCached | photo_processor.py:209-210 | a fresh record and its cached form give the UI the same crop locator |
| Clustering.FirstSeen | photo_processor.py:187-204 | the cluster order has each label once, and exactly the labels that occur |
| Clustering.MembersAbsent | photo_processor.py:191-215 | a label that does not occur has no faces and no face ids |
| Clustering.TablesAfterKeys | photo_processor.py:187-204 | after the loop both dictionaries have exactly the labels as keys, inserted in first-seen order |
| Clustering.TablesAfterContents | photo_processor.py:187-215 | each dictionary entry holds its label, its default name, and the faces (or their ids) with that label, in input order |
| Clustering.ReadTables | photo_processor.py:218 | the values of the two dictionaries are the clusters and the assignment snapshot |
| Clustering.GenerateClusterUiData | photo_processor.py:180-218 | the loop gives the clusters in first-seen label order with their faces, and the matching assignments; more labels than faces raise `IndexError` |
| Clustering.FirstSeenOrder | photo_processor.py:187-218 | an earlier cluster's label first occurs before a later cluster's label |
| Clustering.MembersCount | photo_processor.py:206-215 | a cluster has as many faces and face ids as its label has occurrences |
| Clustering.MembersLabelled | photo_processor.py:206-214 | each face in a cluster is the UI form of a face carrying that cluster's label |
| Clustering.MemberIdsAreIds | photo_processor.py:206-215 | the assignment's face ids are the ids of the cluster's faces, in the same order |
| Clustering.SnapshotMirrorsGroups | photo_processor.py:195-215 | the assignments match the clusters one to one: same id, same name, same faces by id |
| Clustering.ClusterSizesSum | photo_processor.py:187-218 | every labelled face is in exactly one cluster: the cluster sizes add up to the number of labels |
| Clustering.CountMatchesGroups | photo_processor.py:174-176 | the reported cluster count is the number of UI clusters, less one when there is a noise group |
| Albums.KeepNameChars | photo_processor.py:265-266 | the filter keeps only letters, digits, spaces and underscores |
| Albums.KeepNameCharsKeepsAll | photo_processor.py:265-266 | the filter drops none of the allowed characters: each occurs as often in the result as in the name |
| Albums.KeepNameCharsAppend | photo_processor.py:265-266 | the filter works character by character: filtering a concatenation concatenates the filtered parts, so what is kept stays in order |
| Albums.RStrip | photo_processor.py:267 | stripping keeps a prefix that does not end in whitespace and drops only whitespace |
| Albums.SanitizeShape | photo_processor.py:265-267 | a directory name holds only letters, digits, spaces and underscores and does not end in a space |
| Albums.SanitizeClean | photo_processor.py:265-267 | a name that is already clean is kept as it is |
| Albums.SanitizeIdempotent | photo_processor.py:265-267 | sanitising twice gives the same name as sanitising once |
| Albums.AlbumDirIsChild | photo_processor.py:268 | a non-empty album directory is one level directly below the output directory |
| Albums.FaceMapLastWins | photo_processor.py:260 | the face map has exactly the cached face ids as keys, each mapped to the path of the last record with that id |
| Albums.FirstUnknown | photo_processor.py:272-273 | the lookup fails at the first face id missing from the map, and only if there is one |
| Albums.CollectPhotos | photo_processor.py:271-274 | the face loop gives the set of the faces' original paths, or the first unknown face id |
| Albums.SaveAlbum | photo_processor.py:263-278 | one cluster: a missing id fails before anything is done; otherwise the directory is made, then a missing face list or face id fails, else its photos are copied |
| Albums.SaveFinalAlbums | photo_processor.py:257-278 | the loop runs the clusters in order and stops at the first `KeyError`, keeping the steps already taken |
| Albums.SavePlanSucceeds | photo_processor.py:262-274 | the run ends without error exactly when every cluster has an id, a face list, and only known face ids |
| Albums.SaveableSteps | photo_processor.py:268-278 | a cluster that can be saved gets its directory made, then its photo set copied into it |
| Albums.SavePlanSteps | photo_processor.py:262-278 | a successful run takes two steps per cluster, and every step belongs to one of the clusters |
| Albums.UnknownFaceAfterMakeDir | photo_processor.py:269-273 | an unknown face id fails the cluster after its directory was made, naming an id missing from the map, and copies nothing |
| Albums.PhotoSetOfFaces | photo_processor.py:271-278 | each face contributes its photo, each copied photo is the original of one of the cluster's faces, and a shared photo is copied once |
| Search.FirstMatch | photo_processor.py:335-343 | the match is the first face strictly below the threshold; with none, every face is at or above it |
| Search.MatchIff | photo_processor.py:335-341 | a photo matches exactly when it has a face whose distance is strictly below the threshold |
| Search.ThresholdIsNotAMatch | photo_processor.py:337 | a face exactly at the threshold does not match |
| Search.MatchFaces | photo_processor.py:335-343 | the face loop reports a match exactly at the first close face, and stops comparing there |
| Search.ReferenceCount | photo_processor.py:286-299 | the reference embeddings number the sample photos that gave a face |
| Search.ScanPhoto | photo_processor.py:326-345 | a scanned photo is kept exactly when it matches |
| Search.SearchForPerson | photo_processor.py:280-357 | no usable sample stops the search; a missing directory or no match stops it; otherwise the matched photos are copied to the album below the output directory |
| Search.MatchedPathsIff | photo_processor.py:312-343 | a path is saved exactly when it is an image file of the listing with a matching face |
| Search.AlbumIff | photo_processor.py:301-349 | an album is made exactly when a sample gave a face, the directory exists and some image file matches; without a usable sample nothing is scanned |
| Search.AbsoluteAlbumName | photo_processor.py:351 | an absolute album name is used as the album directory itself |

## Left out

- `__init__`, loading the face model and creating the cache directory: the paths are parameters instead.
- The face detector, `cv2.imread`, `cv2.imwrite`, bounding boxes and crops: each file's detection is an input. A crop write that raises is a flag on the face.
- EXIF reading with PIL: the EXIF tags arrive as a map from key names to values. `None` stands for an image that cannot be opened.
- `os.path.getmtime` and the clock: the modification time arrives as a UTC calendar time, or as `None` when it cannot be read.
- `cluster_faces`' DBSCAN: the labels are an input. Only the cluster count that is reported is modelled.
- Embeddings, `np.mean` and `np.linalg.norm`: each scanned face comes with its distance to the reference as a real number. Floating-point rounding and NaN are not modelled.
- JSON writing: the cache content is a result. The failure of the cache write, and the `updated_at` clock value of `_persist_cluster_assignments`, are not modelled. That method is not a member here; its payload is the assignments that `Clustering.GenerateClusterUiData` returns.
- `load_all_faces_data` and `load_cluster_assignments`: they only read JSON files back.
- `shutil.copy` and `os.makedirs`: they are recorded as steps of a plan. A copy or directory creation that raises is not modelled, and the copies of one album are a set, so the order in which they are made is not modelled.
- The `print` messages.
- Extraction.ExtractFaces: a listing error other than a missing directory, such as `NotADirectoryError` or `PermissionError`, propagates out of `extract_faces` in the source; here the listing is either present or missing.
- Search.SearchForPerson: in the same way, a listing error other than a missing search directory propagates out of `search_for_person`; here the listing is either present or missing.
- Albums.IsAlnum: covers ASCII letters and digits only; Python's `str.isalnum` also accepts other Unicode letters and digits.
- Paths.LowerChar: lower-cases ASCII letters only.
- Timestamps.ParseExifDateTime: treats `\d` as an ASCII digit; Python's `strptime` also accepts other Unicode decimal digits.
- Albums.SaveFinalAlbums: a cluster name that is not a string, and a face entry without `face_id`, are not modelled.
- Clustering.GenerateClusterUiData: a face record without `face_image_path` is not modelled.
