/**
 * Unix-style paths as java.io.File and java.nio.file.Path treat them: '/' separates the
 * elements, new File(...) collapses repeated separators and drops a trailing one.
 */
module Paths {
  import opened Wrappers
  import opened Text

  type Path = string

  const Separator: char := '/'

  predicate NoDoubleSeparator(p: Path) {
    forall i :: 0 <= i < |p| - 1 ==> !(p[i] == Separator && p[i + 1] == Separator)
  }

  function Collapse(p: Path): (r: Path)
    ensures |r| <= |p| && (p == [] <==> r == [])
    ensures p != [] ==> r[0] == p[0] && r[|r| - 1] == p[|p| - 1]
    ensures NoDoubleSeparator(r)
  {
    if |p| < 2 then p
    else if p[0] == Separator && p[1] == Separator then Collapse(p[1..])
    else [p[0]] + Collapse(p[1..])
  }

  /** The path string new File(p) keeps: no repeated separator, no trailing one except the root. */
  function Normalize(p: Path): (r: Path)
    ensures NoDoubleSeparator(r)
    ensures |r| > 1 ==> r[|r| - 1] != Separator
    ensures |r| <= |p|
  {
    var c := Collapse(p);
    if |c| > 1 && c[|c| - 1] == Separator then
      assert c[..|c| - 1][|c| - 2] != Separator;
      c[..|c| - 1]
    else c
  }

  /** `root + (root ends with the separator ? "" : separator) + rest`, as a new File. */
  function Join(root: Path, rest: string): Path {
    Normalize(root + (if EndsWith(root, [Separator]) then "" else [Separator]) + rest)
  }

  /** The last separator of p is at position i. */
  predicate LastSeparatorAt(p: Path, i: nat) {
    i < |p| && p[i] == Separator && Separator !in p[i + 1..]
  }

  /**
   * Path.getParent: everything before the last separator, or the root itself when that
   * separator is the first character; a bare name and the root alone have none.
   */
  function Parent(p: Path): (r: Option<Path>)
    ensures r.None? <==> Separator !in p || p == [Separator]
    ensures r.Some? ==> |r.value| < |p|
    ensures r.Some? ==>
      (r.value == [Separator] && LastSeparatorAt(p, 0)) ||
      (0 < |r.value| && r.value == p[..|r.value|] && LastSeparatorAt(p, |r.value|))
  {
    LastIndexOfChar(p, Separator);
    match LastIndexOf(p, [Separator])
    case None => None
    case Some(i) =>
      if i == 0 then (if |p| > 1 then Some([Separator]) else None)
      else Some(p[..i])
  }

  /** File.getName: the last element of the path, the longest suffix without a separator. */
  function FileName(p: Path): (r: string)
    ensures Separator !in r && EndsWith(p, r)
    ensures |r| < |p| ==> p[|p| - |r| - 1] == Separator
  {
    LastIndexOfChar(p, Separator);
    match LastIndexOf(p, [Separator])
    case None => p
    case Some(i) => p[i + 1..]
  }

  /** The file name is what follows the last separator. */
  lemma FileNameAfter(p: Path, i: nat)
    requires LastSeparatorAt(p, i)
    ensures FileName(p) == p[i + 1..]
  {
    LastIndexOfChar(p, Separator);
  }

  /** `name` is the whole element that ends at p's last separator, at position i. */
  predicate ElementBefore(p: Path, i: nat, name: string) {
    LastSeparatorAt(p, i) && EndsWith(p[..i], name) && (|name| < i ==> p[i - |name| - 1] == Separator)
  }

  /**
   * getParentFile().getName(): the element just before p's last separator, when p has a
   * parent; it is empty when that parent is the root.
   */
  function ParentDirName(p: Path): (r: Option<string>)
    ensures r.Some? <==> Parent(p).Some?
    ensures r.Some? ==> Separator !in r.value && exists i: nat :: ElementBefore(p, i, r.value)
  {
    match Parent(p)
    case None => None
    case Some(q) =>
      var r := FileName(q);
      if q == [Separator] && LastSeparatorAt(p, 0) then
        assert ElementBefore(p, 0, r);
        Some(r)
      else
        var i := |q|;
        assert p[..i] == q && LastSeparatorAt(p, i);
        assert EndsWith(p[..i], r);
        assert ElementBefore(p, i, r);
        Some(r)
  }

  /**
   * The path followed by all of its ancestors, nearest first: what Files.createDirectories
   * creates. Each entry is the parent of the one before it, and the last has none.
   */
  function Ancestors(p: Path): (r: seq<Path>)
    ensures |r| >= 1 && r[0] == p
    ensures forall k :: 0 <= k < |r| - 1 ==> Parent(r[k]) == Some(r[k + 1])
    ensures Parent(r[|r| - 1]).None?
    decreases |p|
  {
    match Parent(p)
    case None => [p]
    case Some(q) => [p] + Ancestors(q)
  }

  /** The part of a file name from its last '.', as substring(lastIndexOf('.')) gives it. */
  function Extension(name: string): (r: Option<string>)
    ensures r.None? <==> '.' !in name
    ensures r.Some? ==> EndsWith(name, r.value) && |r.value| >= 1 && r.value[0] == '.' && '.' !in r.value[1..]
  {
    LastIndexOfChar(name, '.');
    match LastIndexOf(name, ".")
    case None => None
    case Some(i) =>
      assert name[i..][1..] == name[i + 1..];
      Some(name[i..])
  }

  /**
   * The extension of a path's file name, read back from the end of the path: nothing once a
   * separator is reached, "." at the first '.', else the extension before the last character
   * followed by it. FileExtensionIs shows it is Extension(FileName(p)).
   */
  function FileExtension(p: Path): Option<string>
    decreases |p|
  {
    if p == [] || p[|p| - 1] == Separator then None
    else if p[|p| - 1] == '.' then Some(".")
    else match FileExtension(p[..|p| - 1])
      case None => None
      case Some(e) => Some(e + [p[|p| - 1]])
  }

  /** A suffix without a separator that starts right after one, or at the start, is the file name. */
  lemma FileNameUnique(p: Path, s: string)
    requires Separator !in s && EndsWith(p, s) && (|s| < |p| ==> p[|p| - |s| - 1] == Separator)
    ensures FileName(p) == s
  {
    var r := FileName(p);
    assert r == p[|p| - |r|..] == s;
  }

  /** A suffix that starts at a '.' and has no other '.' is the extension. */
  lemma ExtensionUnique(name: string, e: string)
    requires EndsWith(name, e) && |e| >= 1 && e[0] == '.' && '.' !in e[1..]
    ensures Extension(name) == Some(e)
  {
    assert name[|name| - |e|] == '.';
    var r := Extension(name).value;
    assert r == name[|name| - |r|..] == e;
  }

  /** The file name of a path whose last character is no separator ends with that character. */
  lemma FileNameLast(p: Path)
    requires p != [] && p[|p| - 1] != Separator
    ensures FileName(p) == FileName(p[..|p| - 1]) + [p[|p| - 1]]
  {
    var q, c := p[..|p| - 1], p[|p| - 1];
    var r := FileName(q);
    assert p == q + [c];
    assert Separator !in r + [c] by {
      forall k | 0 <= k < |r + [c]| ensures (r + [c])[k] != Separator {
        if k < |r| { assert (r + [c])[k] == r[k]; }
      }
    }
    assert EndsWith(p, r + [c]) by {
      assert p[|p| - |r + [c]|..] == q[|q| - |r|..] + [c];
    }
    if |r + [c]| < |p| {
      assert p[|p| - |r + [c]| - 1] == q[|q| - |r| - 1];
    }
    FileNameUnique(p, r + [c]);
  }

  /** FileExtension is the extension of the file name. */
  lemma {:induction false} FileExtensionIs(p: Path)
    ensures FileExtension(p) == Extension(FileName(p))
    decreases |p|
  {
    if p == [] {
      FileNameUnique(p, []);
    } else if p[|p| - 1] == Separator {
      assert FileName(p) == [];
    } else {
      var q, c := p[..|p| - 1], p[|p| - 1];
      FileNameLast(p);
      if c == '.' {
        ExtensionOfDot(FileName(q));
      } else {
        FileExtensionIs(q);
        ExtensionOfLast(FileName(q), c);
      }
    }
  }

  /** A name that ends with '.' has the extension ".". */
  lemma ExtensionOfDot(r: string)
    ensures Extension(r + ".") == Some(".")
  {
    assert EndsWith(r + ".", ".");
    ExtensionUnique(r + ".", ".");
  }

  /** A character other than '.' added to a name is added to its extension, if it has one. */
  lemma ExtensionOfLast(r: string, c: char)
    requires c != '.'
    ensures Extension(r + [c]) == match Extension(r) case None => None case Some(e) => Some(e + [c])
  {
    match Extension(r)
    case None =>
      assert '.' !in r + [c] by {
        forall k | 0 <= k < |r + [c]| ensures (r + [c])[k] != '.' {
          if k < |r| { assert (r + [c])[k] == r[k]; }
        }
      }
    case Some(e) =>
      assert EndsWith(r + [c], e + [c]) by {
        assert (r + [c])[|r + [c]| - |e + [c]|..] == r[|r| - |e|..] + [c];
      }
      assert '.' !in (e + [c])[1..] by {
        assert (e + [c])[1..] == e[1..] + [c];
        forall k | 0 <= k < |e[1..] + [c]| ensures (e[1..] + [c])[k] != '.' {
          if k < |e[1..]| { assert (e[1..] + [c])[k] == e[1..][k]; }
        }
      }
      ExtensionUnique(r + [c], e + [c]);
  }

  /** The part of a file name before its last '.', as substring(0, lastIndexOf('.')) gives it. */
  function Stem(name: string): (r: Option<string>)
    ensures r.None? <==> '.' !in name
    ensures r.Some? ==> |r.value| < |name| && name == r.value + Extension(name).value
  {
    LastIndexOfChar(name, '.');
    match LastIndexOf(name, ".")
    case None => None
    case Some(i) =>
      assert name == name[..i] + name[i..];
      Some(name[..i])
  }

  /** Some separator in p has a character other than a separator somewhere after it. */
  predicate SeparatorBefore(p: Path) {
    exists i, j :: 0 <= i < j < |p| && p[i] == Separator && p[j] != Separator
  }

  /** A text that continues with a separator and then a name has a separator before a name. */
  lemma SeparatorAhead(a: string, b: string)
    requires |b| >= 2 && b[0] == Separator && b[1] != Separator
    ensures SeparatorBefore(a + b)
  {
    assert (a + b)[|a|] == Separator && (a + b)[|a| + 1] != Separator;
  }

  /**
   * Collapsing repeated separators keeps a separator that has a name after it: given one such
   * pair of positions in p, it returns one in Collapse(p).
   */
  lemma {:induction false} CollapseKeepsSeparatorBefore(p: Path, i: nat, j: nat) returns (i': nat, j': nat)
    requires i < j < |p| && p[i] == Separator && p[j] != Separator
    ensures i' < j' < |Collapse(p)| && Collapse(p)[i'] == Separator && Collapse(p)[j'] != Separator
    decreases |p|
  {
    var tail := p[1..];
    if p[0] == Separator && p[1] == Separator {
      i', j' := CollapseKeepsSeparatorBefore(tail, if i == 0 then 0 else i - 1, j - 1);
    } else if i == 0 {
      assert Collapse(p) == [p[0]] + Collapse(tail);
      i', j' := 0, 1;
    } else {
      var a, b := CollapseKeepsSeparatorBefore(tail, i - 1, j - 1);
      assert Collapse(p) == [p[0]] + Collapse(tail);
      i', j' := a + 1, b + 1;
    }
  }

  /** A path with a separator followed by a name has a parent, however it is normalized. */
  lemma NormalizedHasParent(p: Path, i0: nat, j0: nat)
    requires i0 < j0 < |p| && p[i0] == Separator && p[j0] != Separator
    ensures Parent(Normalize(p)).Some?
  {
    var i, j := CollapseKeepsSeparatorBefore(p, i0, j0);
    var c := Collapse(p);
    var n := Normalize(p);
    if |c| > 1 && c[|c| - 1] == Separator {
      assert n == c[..|c| - 1] && j < |n|;
      assert n[i] == Separator;
    } else {
      assert n == c;
    }
    SeparatorGivesParent(n, i, j);
  }

  /** A separator with another character after it is a last separator's witness: there is a parent. */
  lemma SeparatorGivesParent(n: Path, i: nat, j: nat)
    requires i < j < |n| && n[i] == Separator
    ensures Parent(n).Some?
  {
    assert n[i..i + 1] == [Separator];
    assert OccursAt(n, [Separator], i);
    assert LastIndexOf(n, [Separator]).Some?;
  }

  /** Joining a root and a relative path that has a separator followed by a name gives a path with a parent. */
  lemma JoinHasParent(root: Path, rest: string)
    requires SeparatorBefore(rest)
    ensures Parent(Join(root, rest)).Some?
  {
    var i, j :| 0 <= i < j < |rest| && rest[i] == Separator && rest[j] != Separator;
    var prefix := root + (if EndsWith(root, [Separator]) then "" else [Separator]);
    var p := prefix + rest;
    assert p[|prefix| + i] == Separator && p[|prefix| + j] != Separator;
    NormalizedHasParent(p, |prefix| + i, |prefix| + j);
  }
}
