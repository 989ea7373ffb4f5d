/**
  The part of Python's `ntpath` that add_noise.py relies on to name its
  outputs: `basename`, `splitext` and `join`. The configured folders are
  Windows paths, so both `\` and `/` separate path components.
 */
module PathNames {

  predicate IsSep(c: char)
  {
    c == '\\' || c == '/'
  }

  predicate NoSep(s: string)
  {
    forall k :: 0 <= k < |s| ==> !IsSep(s[k])
  }

  predicate NoDot(s: string)
  {
    forall k :: 0 <= k < |s| ==> s[k] != '.'
  }

  predicate HasNonDot(s: string)
  {
    exists k :: 0 <= k < |s| && s[k] != '.'
  }

  /** `str.rfind(c)`: the index of the last `c` in `s`, or -1 when there is none. */
  function RFind(s: string, c: char): (k: int)
    ensures -1 <= k < |s|
    ensures k >= 0 ==> s[k] == c
    ensures forall j :: k < j < |s| ==> s[j] != c
    decreases |s|
  {
    if s == [] then -1
    else if s[|s| - 1] == c then |s| - 1
    else RFind(s[..|s| - 1], c)
  }

  /** The index of the last separator of either kind, or -1: `max(p.rfind(sep), p.rfind(altsep))`. */
  function LastSep(p: string): (k: int)
    ensures -1 <= k < |p|
    ensures k >= 0 ==> IsSep(p[k])
    ensures forall j :: k < j < |p| ==> !IsSep(p[j])
  {
    var back, slash := RFind(p, '\\'), RFind(p, '/');
    if back < slash then slash else back
  }

  /** `os.path.basename(p)`: the longest suffix of `p` without a separator. */
  function Basename(p: string): (b: string)
    ensures |b| <= |p| && b == p[|p| - |b|..]
    ensures NoSep(b)
    ensures |b| < |p| ==> IsSep(p[|p| - |b| - 1])
  {
    p[LastSep(p) + 1..]
  }

  /**
    `os.path.splitext(p)[0]`: `p` without its last extension. The extension
    starts at the last dot of the last component, and only when some character
    of that component before the dot is not a dot, so leading dots never start one.
   */
  function SplitExtRoot(p: string): (root: string)
    ensures |root| <= |p| && root == p[..|root|]
    ensures |root| < |p| ==> p[|root|] == '.' && NoDot(p[|root| + 1..]) && NoSep(p[|root| + 1..])
    ensures |root| < |p| ==> HasNonDot(p[LastSep(p) + 1..|root|])
    ensures RFind(p, '.') > LastSep(p) && HasNonDot(p[LastSep(p) + 1..RFind(p, '.')]) ==> |root| == RFind(p, '.')
  {
    var sepIndex, dotIndex := LastSep(p), RFind(p, '.');
    if dotIndex > sepIndex && HasNonDot(p[sepIndex + 1..dotIndex]) then p[..dotIndex] else p
  }

  /** `os.path.splitext(os.path.basename(p))[0]`: the file's name without folder and last extension. */
  function Stem(p: string): (stem: string)
    ensures NoSep(stem)
  {
    SplitExtRoot(Basename(p))
  }

  /**
    `os.path.join(dir, name)` for a relative `name`: a `\` goes between the two
    unless `dir` is empty or already ends with a separator.
   */
  function JoinPath(dir: string, name: string): (p: string)
    ensures |dir| + |name| <= |p| <= |dir| + 1 + |name|
    ensures p[..|dir|] == dir && p[|p| - |name|..] == name
    ensures |p| == |name| || IsSep(p[|p| - |name| - 1])
  {
    if dir == [] then name
    else if IsSep(dir[|dir| - 1]) then dir + name
    else dir + "\\" + name
  }

  /** A separator-free name that ends a path right after a separator, or is the whole path, is its basename. */
  lemma BasenameOfLastComponent(p: string, name: string)
    requires NoSep(name) && |p| >= |name| && p[|p| - |name|..] == name
    requires |p| == |name| || IsSep(p[|p| - |name| - 1])
    ensures Basename(p) == name
  {
    var start, k := |p| - |name|, LastSep(p);
    assert forall j :: start <= j < |p| ==> !IsSep(p[j]) by {
      forall j | start <= j < |p| ensures !IsSep(p[j]) {
        assert p[j] == name[j - start];
      }
    }
    assert k == start - 1;
  }

  /** A separator-free name joined to any folder is the basename of the result. */
  lemma BasenameOfJoin(dir: string, name: string)
    requires NoSep(name)
    ensures Basename(JoinPath(dir, name)) == name
  {
    BasenameOfLastComponent(JoinPath(dir, name), name);
  }

  /** A name with a separator-free, dot-free last extension and a root that is not all dots loses exactly that extension. */
  lemma SplitExtRootOfName(root: string, ext: string)
    requires NoSep(root) && HasNonDot(root)
    requires |ext| >= 1 && ext[0] == '.' && NoDot(ext[1..]) && NoSep(ext[1..])
    ensures SplitExtRoot(root + ext) == root
  {
    var p := root + ext;
    assert NoSep(p) by {
      forall k | 0 <= k < |p| ensures !IsSep(p[k]) {
        if k >= |root| { assert p[k] == ext[k - |root|]; if k > |root| { assert ext[1..][k - |root| - 1] == ext[k - |root|]; } }
      }
    }
    assert forall k :: |root| < k < |p| ==> p[k] != '.' by {
      forall k | |root| < k < |p| ensures p[k] != '.' {
        assert p[k] == ext[1..][k - |root| - 1];
      }
    }
    var dotIndex := RFind(p, '.');
    assert p[|root|] == '.';
    assert LastSep(p) == -1;
    assert p[0..dotIndex] == root;
  }

  /** A name whose only dots lead it, such as `.png`, keeps them: it has no extension. */
  lemma SplitExtRootLeadingDots(dots: string, tail: string)
    requires |dots| >= 1 && !HasNonDot(dots) && NoSep(tail) && NoDot(tail)
    ensures SplitExtRoot(dots + tail) == dots + tail
  {
    var p := dots + tail;
    assert NoSep(p) by {
      forall k | 0 <= k < |p| ensures !IsSep(p[k]) {
        if k < |dots| { assert p[k] == dots[k]; } else { assert p[k] == tail[k - |dots|]; }
      }
    }
    assert forall k :: |dots| <= k < |p| ==> p[k] != '.' by {
      forall k | |dots| <= k < |p| ensures p[k] != '.' {
        assert p[k] == tail[k - |dots|];
      }
    }
    var dotIndex := RFind(p, '.');
    assert p[|dots| - 1] == '.';
    assert LastSep(p) == -1;
    assert !HasNonDot(p[0..dotIndex]) by {
      forall k | 0 <= k < dotIndex ensures p[0..dotIndex][k] == '.' {
        assert p[k] == dots[k];
      }
    }
  }

  /** A file joined to any folder has as stem its name without the last extension; earlier dots stay. */
  lemma StemOfJoined(dir: string, root: string, ext: string)
    requires NoSep(root) && HasNonDot(root)
    requires |ext| >= 1 && ext[0] == '.' && NoDot(ext[1..]) && NoSep(ext[1..])
    ensures Stem(JoinPath(dir, root + ext)) == root
  {
    var name := root + ext;
    assert NoSep(name) by {
      forall k | 0 <= k < |name| ensures !IsSep(name[k]) {
        if k > |root| { assert name[k] == ext[1..][k - |root| - 1]; }
      }
    }
    BasenameOfJoin(dir, name);
    SplitExtRootOfName(root, ext);
  }

  /** Only the last extension goes: `scan.01.png` in any folder has stem `scan.01`. */
  lemma StemKeepsInnerDots(dir: string)
    ensures Stem(JoinPath(dir, "scan.01.png")) == "scan.01"
  {
    var root, ext := "scan.01", ".png";
    assert root[0] != '.';
    assert NoDot(ext[1..]) && NoSep(ext[1..]) && NoSep(root);
    assert root + ext == "scan.01.png";
    StemOfJoined(dir, root, ext);
  }

  /** Leading dots start no extension: `.png` in any folder has stem `.png`. */
  lemma StemKeepsLeadingDot(dir: string)
    ensures Stem(JoinPath(dir, ".png")) == ".png"
  {
    var dots, tail := ".", "png";
    assert NoDot(tail) && NoSep(tail) && !HasNonDot(dots);
    assert dots + tail == ".png";
    BasenameOfJoin(dir, ".png");
    SplitExtRootLeadingDots(dots, tail);
  }
}
