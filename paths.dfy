/**
 * `System.IO.Path` as the map server uses it, on a host whose directory
 * separator is '/': file names, extensions, `Combine` and `Join`.
 */
module Paths {

  const Separator: char := '/'

  predicate NoSeparator(s: string) {
    forall i :: 0 <= i < |s| ==> s[i] != Separator
  }

  /** The index of the last `c` in `s`, or -1 when there is none. */
  function LastIndexOf(s: string, c: char): (i: int)
    ensures -1 <= i < |s|
    ensures i >= 0 ==> s[i] == c
    ensures forall j :: i < j < |s| ==> s[j] != c
    decreases |s|
  {
    if |s| == 0 then -1
    else if s[|s| - 1] == c then |s| - 1
    else LastIndexOf(s[..|s| - 1], c)
  }

  /** `Path.GetFileName`: the part after the last separator. */
  function GetFileName(path: string): (r: string)
    ensures NoSeparator(r)
    ensures |r| <= |path| && path[|path| - |r|..] == r
    ensures |r| < |path| ==> path[|path| - |r| - 1] == Separator
  {
    path[LastIndexOf(path, Separator) + 1..]
  }

  /**
   * `Path.GetExtension`: from the last '.' of the file name on, or "" when the
   * file name has no '.' or ends with it.
   */
  function GetExtension(path: string): (r: string)
    ensures r == "" || (|r| >= 2 && r[0] == '.' && NoSeparator(r))
    ensures forall i :: 0 < i < |r| ==> r[i] != '.'
  {
    NameExtension(GetFileName(path))
  }

  /** The extension of a file name: from its last '.' on, unless that '.' ends it. */
  function NameExtension(name: string): (r: string)
    requires NoSeparator(name)
    ensures r == "" || (|r| >= 2 && r[0] == '.' && NoSeparator(r))
    ensures forall i :: 0 < i < |r| ==> r[i] != '.'
  {
    var dot := LastIndexOf(name, '.');
    if dot >= 0 && dot != |name| - 1 then name[dot..] else ""
  }

  /** `Path.HasExtension`. */
  predicate HasExtension(path: string) {
    GetExtension(path) != ""
  }

  /** `Path.GetFileNameWithoutExtension`: the file name up to its last '.'. */
  function GetFileNameWithoutExtension(path: string): (r: string)
    ensures NoSeparator(r)
  {
    var name := GetFileName(path);
    var dot := LastIndexOf(name, '.');
    if dot < 0 then name else name[..dot]
  }

  /**
   * `Path.Combine(a, b)`: an empty part is skipped, a rooted `b` replaces `a`,
   * and a separator is put between the two when neither supplies one.
   */
  function Combine(a: string, b: string): string {
    if |b| == 0 then a
    else if |a| == 0 || b[0] == Separator then b
    else if a[|a| - 1] == Separator then a + b
    else a + [Separator] + b
  }

  /** `Path.Join(a, b)`: like `Combine`, except that a rooted `b` does not replace `a`. */
  function Join(a: string, b: string): string {
    if |a| == 0 then b
    else if |b| == 0 then a
    else if a[|a| - 1] == Separator || b[0] == Separator then a + b
    else a + [Separator] + b
  }

  lemma NoSeparatorConcat(a: string, b: string)
    requires NoSeparator(a) && NoSeparator(b)
    ensures NoSeparator(a + b)
  {
    forall i | 0 <= i < |a + b| ensures (a + b)[i] != Separator {
      if i >= |a| {
        assert (a + b)[i] == b[i - |a|];
      }
    }
  }

  /** Name and extension depend on the file name only. */
  lemma SameFileName(p: string, q: string)
    requires GetFileName(p) == GetFileName(q)
    ensures GetFileNameWithoutExtension(p) == GetFileNameWithoutExtension(q)
    ensures GetExtension(p) == GetExtension(q)
  {
  }

  /** The file name of a path combined from a directory and a plain name is that name. */
  lemma CombineFileName(dir: string, name: string)
    requires |name| > 0 && NoSeparator(name)
    ensures GetFileName(Combine(dir, name)) == name
  {
    var p := Combine(dir, name);
    assert p[|p| - |name|..] == name;
    if |p| > |name| {
      assert p[|p| - |name| - 1] == Separator;
    }
  }

  /**
   * A file name made of a stem without '.' and an extension as `GetExtension`
   * returns it splits back into that stem and that extension.
   */
  lemma {:induction false} FileNameParts(stem: string, ext: string)
    requires NoSeparator(stem) && forall i :: 0 <= i < |stem| ==> stem[i] != '.'
    requires ext == "" || (|ext| >= 2 && ext[0] == '.' && NoSeparator(ext))
    requires forall i :: 0 < i < |ext| ==> ext[i] != '.'
    ensures GetFileNameWithoutExtension(stem + ext) == stem
    ensures GetExtension(stem + ext) == ext
  {
    var name := stem + ext;
    assert NoSeparator(name) by {
      forall i | 0 <= i < |name| ensures name[i] != Separator {
        if i >= |stem| { assert name[i] == ext[i - |stem|]; }
      }
    }
    assert LastIndexOf(name, Separator) == -1;
    assert GetFileName(name) == name;
    var dot := LastIndexOf(name, '.');
    if ext == "" {
      assert name == stem;
      assert dot == -1;
    } else {
      assert name[|stem|] == '.';
      assert dot == |stem| by {
        forall j | |stem| < j < |name| ensures name[j] != '.' {
          assert name[j] == ext[j - |stem|];
        }
      }
      assert name[..dot] == stem;
      assert name[dot..] == ext;
    }
  }

  /** A path combined from a directory and a stem plus extension splits back into the two. */
  lemma CombinedNameParts(dir: string, stem: string, ext: string)
    requires NoSeparator(stem) && forall i :: 0 <= i < |stem| ==> stem[i] != '.'
    requires ext == "" || (|ext| >= 2 && ext[0] == '.' && NoSeparator(ext))
    requires forall i :: 0 < i < |ext| ==> ext[i] != '.'
    requires |stem + ext| > 0
    ensures GetFileNameWithoutExtension(Combine(dir, stem + ext)) == stem
    ensures GetExtension(Combine(dir, stem + ext)) == ext
  {
    var name := stem + ext;
    NoSeparatorConcat(stem, ext);
    CombineFileName(dir, name);
    CombineFileName("", name);
    SameFileName(Combine(dir, name), name);
    FileNameParts(stem, ext);
  }

  /** Combining a directory with a name of plain parts keeps that name as the file name. */
  lemma CombineConcatFileName(dir: string, a: string, b: string)
    requires |a| > 0 && NoSeparator(a) && NoSeparator(b)
    ensures GetFileName(Combine(dir, a + b)) == a + b
  {
    NoSeparatorConcat(a, b);
    CombineFileName(dir, a + b);
  }
}
