/**
 * The path helpers the photo processor relies on: POSIX `os.path.splitext`,
 * `os.path.join` and `os.path.basename`, ASCII `str.lower`, and the
 * image-extension allow-list that decides which directory entries are scanned.
 */
module Paths {

  /** The allow-list used by both directory scans. */
  predicate IsImageExtension(ext: string) {
    ext == ".jpg" || ext == ".jpeg" || ext == ".png" || ext == ".bmp" || ext == ".tiff"
  }

  /** One entry of a (non-recursive) directory listing and what it holds. */
  datatype DirEntry<T> = DirEntry(name: string, content: T)

  /** Index of the last occurrence of `c` in `s`, or -1 (`str.rfind`). */
  function LastIndex(s: string, c: char): (r: int)
    ensures -1 <= r < |s|
    ensures r >= 0 ==> s[r] == c
    ensures forall j :: r < j < |s| ==> s[j] != c
  {
    if s == [] then -1
    else if s[|s| - 1] == c then |s| - 1
    else LastIndex(s[..|s| - 1], c)
  }

  /** The two halves `os.path.splitext` returns. */
  datatype PathParts = PathParts(root: string, ext: string)

  /**
   * `os.path.splitext`: the extension starts at the last dot of the last
   * path component, unless every character of that component before the dot
   * is itself a dot (so `.jpg` and `..jpg` have no extension).
   */
  function SplitExt(p: string): PathParts {
    var sepIndex := LastIndex(p, '/');
    var dotIndex := LastIndex(p, '.');
    if dotIndex > sepIndex && exists i :: sepIndex < i < dotIndex && p[i] != '.' then
      PathParts(p[..dotIndex], p[dotIndex..])
    else
      PathParts(p, [])
  }

  /**
   * The two parts put back together give the path, and an extension is a
   * dot followed by text with no further dot and no `/`.
   */
  lemma {:induction false} SplitExtParts(p: string)
    ensures var r := SplitExt(p);
      r.root + r.ext == p
      && (r.ext == [] || (r.ext[0] == '.' && '.' !in r.ext[1..] && '/' !in r.ext))
  {
    var sepIndex := LastIndex(p, '/');
    var dotIndex := LastIndex(p, '.');
    if SplitExt(p).ext != [] {
      NotInSuffix(p, dotIndex + 1, '.');
      NotInSuffix(p, dotIndex, '/');
      assert p[dotIndex..][1..] == p[dotIndex + 1..];
    }
  }

  lemma {:induction false} NotInSuffix(s: string, from: nat, c: char)
    requires from <= |s|
    requires forall k :: from <= k < |s| ==> s[k] != c
    ensures c !in s[from..]
  {
    var t := s[from..];
    forall k | 0 <= k < |t| ensures t[k] != c {
      assert t[k] == s[from + k];
    }
  }

  lemma {:induction false} NotInSuffixAt(s: string, from: nat, c: char)
    requires from <= |s| && c !in s[from..]
    ensures forall k :: from <= k < |s| ==> s[k] != c
  {
    forall k | from <= k < |s| ensures s[k] != c {
      assert s[k] == s[from..][k - from];
    }
  }

  function LowerChar(c: char): char {
    if 'A' <= c <= 'Z' then (c as int - 'A' as int + 'a' as int) as char else c
  }

  /** `str.lower` on ASCII letters; every other character is kept. */
  function Lower(s: string): (r: string)
    ensures |r| == |s|
    ensures forall i :: 0 <= i < |s| ==> r[i] == LowerChar(s[i])
  {
    if s == [] then [] else [LowerChar(s[0])] + Lower(s[1..])
  }

  /** The test of the list comprehension that selects image files. */
  predicate IsImageFile(name: string) {
    IsImageExtension(Lower(SplitExt(name).ext))
  }

  /**
   * `name[d..]` is an allowed extension that `splitext` would split off:
   * `d` is the last dot, and some character before it is not a dot.
   */
  predicate ImageExtensionAt(name: string, d: int) {
    0 <= d < |name| && name[d] == '.' && '.' !in name[d + 1..]
    && (exists j :: 0 <= j < d && name[j] != '.')
    && IsImageExtension(Lower(name[d..]))
  }

  /**
   * For a directory entry name (no `/`): it is an image file exactly when
   * the text from its last dot onward, lower-cased, is on the allow-list and
   * some character before that dot is not a dot.
   */
  lemma {:induction false} ImageFileIff(name: string)
    requires '/' !in name
    ensures IsImageFile(name) <==> exists d :: ImageExtensionAt(name, d)
  {
    if d :| ImageExtensionAt(name, d) {
      ExtensionAtIsImage(name, d);
    } else if IsImageFile(name) {
      ImageHasExtensionAt(name);
    }
  }

  lemma {:induction false} ExtensionAtIsImage(name: string, d: int)
    requires '/' !in name && ImageExtensionAt(name, d)
    ensures IsImageFile(name)
  {
    assert LastIndex(name, '/') == -1;
    NotInSuffixAt(name, d + 1, '.');
    assert LastIndex(name, '.') == d;
    assert SplitExt(name).ext == name[d..];
  }

  lemma {:induction false} ImageHasExtensionAt(name: string)
    requires '/' !in name && IsImageFile(name)
    ensures ImageExtensionAt(name, LastIndex(name, '.'))
  {
    var dotIndex := LastIndex(name, '.');
    assert LastIndex(name, '/') == -1;
    assert SplitExt(name).ext != [];
    assert SplitExt(name).ext == name[dotIndex..];
    NotInSuffix(name, dotIndex + 1, '.');
  }

  /** A name that only starts with a dot has no extension, so it is skipped. */
  lemma {:induction false} LeadingDotSkipped()
    ensures !IsImageFile(".jpg")
  {
    assert SplitExt(".jpg").ext == [];
  }

  /** The extension test ignores case. */
  lemma {:induction false} UpperCaseKept()
    ensures IsImageFile("a.JPG")
  {
    var name := "a.JPG";
    assert name[1..] == ".JPG" && name[2..] == "JPG";
    assert '.' !in "JPG" by {
      forall k | 0 <= k < 3 ensures "JPG"[k] != '.' { }
    }
    assert name[0] != '.';
    assert Lower(".JPG") == ".jpg";
    assert ImageExtensionAt(name, 1);
    ImageFileIff(name);
  }

  /** Lower-casing keeps exactly the dots and slashes where they were. */
  lemma {:induction false} LowerKeepsSeparators(name: string)
    ensures forall j :: 0 <= j < |name| ==>
      (Lower(name)[j] == '.' <==> name[j] == '.') && (Lower(name)[j] == '/' <==> name[j] == '/')
  {
  }

  /** Lower-casing the text after `d` is the same before or after taking the suffix. */
  lemma {:induction false} LowerSuffix(name: string, d: nat)
    requires d <= |name|
    ensures Lower(name)[d..] == Lower(name[d..])
  {
  }

  lemma {:induction false} LowerIdempotent(s: string)
    ensures Lower(Lower(s)) == Lower(s)
  {
  }

  /**
   * Two names with their dots and slashes in the same places split at the
   * same place: both have an extension starting at the same index, or
   * neither has one.
   */
  lemma {:induction false} SplitExtAlike(p: string, q: string)
    requires |p| == |q|
    requires forall j :: 0 <= j < |p| ==> (p[j] == '.' <==> q[j] == '.') && (p[j] == '/' <==> q[j] == '/')
    ensures SplitExt(p).ext == [] <==> SplitExt(q).ext == []
    ensures SplitExt(p).ext != [] ==>
      var dot := LastIndex(p, '.');
      0 <= dot && SplitExt(p).ext == p[dot..] && SplitExt(q).ext == q[dot..]
  {
    var sep, dot := LastIndex(p, '/'), LastIndex(p, '.');
    assert LastIndex(q, '/') == sep;
    assert LastIndex(q, '.') == dot;
    var inP := exists i :: sep < i < dot && p[i] != '.';
    var inQ := exists i :: sep < i < dot && q[i] != '.';
    assert inP == inQ by {
      if inP {
        var i :| sep < i < dot && p[i] != '.';
        assert q[i] != '.';
      }
      if inQ {
        var i :| sep < i < dot && q[i] != '.';
        assert p[i] != '.';
      }
    }
    if dot > sep && inP {
      assert SplitExt(p).ext == p[dot..] && SplitExt(q).ext == q[dot..];
      assert |p[dot..]| > 0 && |q[dot..]| > 0;
    } else {
      assert SplitExt(p).ext == [] && SplitExt(q).ext == [];
    }
  }

  /** The extension of the lower-cased name is the lower-cased extension. */
  lemma {:induction false} SplitExtLower(name: string)
    ensures SplitExt(Lower(name)).ext == Lower(SplitExt(name).ext)
  {
    LowerKeepsSeparators(name);
    SplitExtAlike(name, Lower(name));
    if SplitExt(name).ext != [] {
      LowerSuffix(name, LastIndex(name, '.'));
    }
  }

  /** Whether a name is an image file does not depend on the case of its letters. */
  lemma {:induction false} ExtensionCaseIgnored(name: string)
    ensures IsImageFile(Lower(name)) == IsImageFile(name)
  {
    SplitExtLower(name);
    LowerIdempotent(SplitExt(name).ext);
  }

  /** The entries the comprehension keeps, in listing order. */
  function ImageEntries<T>(entries: seq<DirEntry<T>>): (r: seq<DirEntry<T>>)
    ensures |r| <= |entries|
  {
    if entries == [] then []
    else (if IsImageFile(entries[0].name) then [entries[0]] else []) + ImageEntries(entries[1..])
  }

  /** An entry is kept exactly when it is in the listing and has an image extension. */
  lemma {:induction false} ImageEntriesMembers<T(!new)>(entries: seq<DirEntry<T>>)
    ensures forall e :: e in ImageEntries(entries) <==> e in entries && IsImageFile(e.name)
  {
    if entries != [] {
      ImageEntriesMembers(entries[1..]);
      assert forall e :: e in entries <==> e == entries[0] || e in entries[1..];
    }
  }

  /** POSIX `os.path.join(a, b)`: an absolute `b` replaces `a`. */
  function Join(a: string, b: string): string {
    if |b| > 0 && b[0] == '/' then b
    else if a == [] || a[|a| - 1] == '/' then a + b
    else a + "/" + b
  }

  /** An absolute `b` is the result; a relative one ends the result, after all of `a`. */
  lemma {:induction false} JoinShape(a: string, b: string)
    ensures |b| > 0 && b[0] == '/' ==> Join(a, b) == b
    ensures (|b| == 0 || b[0] != '/') ==>
      var r := Join(a, b);
      |a| + |b| <= |r| && r[..|a|] == a && r[|r| - |b|..] == b
  {
  }

  /** Joining one directory with two different relative names gives two different paths. */
  lemma {:induction false} JoinInjective(a: string, b1: string, b2: string)
    requires |b1| > 0 && b1[0] != '/' && |b2| > 0 && b2[0] != '/'
    requires Join(a, b1) == Join(a, b2)
    ensures b1 == b2
  {
    JoinShape(a, b1);
    if a == [] || a[|a| - 1] == '/' {
      assert b1 == Join(a, b1)[|a|..];
    } else {
      assert b1 == Join(a, b1)[|a| + 1..];
    }
  }

  /** `os.path.basename`: the text after the last `/`, or all of `p` when it has none. */
  function Basename(p: string): (r: string)
    ensures '/' !in r
    ensures |r| <= |p| && p[|p| - |r|..] == r
    ensures |r| == |p| || p[|p| - |r| - 1] == '/'
  {
    var i := LastIndex(p, '/');
    NotInSuffix(p, i + 1, '/');
    p[i + 1..]
  }

  /** A name without `/` joined below a directory has that name as its basename. */
  lemma {:induction false} BasenameOfJoin(a: string, b: string)
    requires '/' !in b && |b| > 0
    ensures Basename(Join(a, b)) == b
  {
    var p := Join(a, b);
    JoinShape(a, b);
    var start := |p| - |b|;
    assert p[start..] == b;
    assert p == p[..start] + b;
    assert start == 0 || p[start - 1] == '/';
    var i := LastIndex(p, '/');
    NotInSuffixAt(p, start, '/');
    assert i == start - 1;
  }
}
