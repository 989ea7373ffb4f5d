/**
  The input filter of add_noise.py: a directory entry is an input image when its
  lower-cased name ends with `.png`, `.jpg` or `.jpeg`; kept entries stay in
  listing order.
 */
module FileFilter {

  /** `str.lower()` on one character, for the ASCII letters. */
  function LowerChar(c: char): char
  {
    if 'A' <= c <= 'Z' then (c as int + 32) as char else c
  }

  /** `str.lower()`: every ASCII capital replaced by its small letter, nothing else changed. */
  function Lower(s: string): (r: string)
    ensures |r| == |s|
    ensures forall k :: 0 <= k < |s| ==> r[k] == LowerChar(s[k])
  {
    seq(|s|, k requires 0 <= k < |s| => LowerChar(s[k]))
  }

  /** Lower-casing twice is lower-casing once. */
  lemma LowerIdempotent(s: string)
    ensures Lower(Lower(s)) == Lower(s)
  {
    var once := Lower(s);
    forall k | 0 <= k < |s|
      ensures Lower(once)[k] == once[k]
    {
      assert !('A' <= once[k] <= 'Z');
    }
  }

  predicate EndsWith(s: string, suffix: string)
  {
    |suffix| <= |s| && s[|s| - |suffix|..] == suffix
  }

  /** `f.lower().endswith(('.png', '.jpg', '.jpeg'))`. */
  predicate IsImageName(f: string)
    ensures IsImageName(f) ==> |f| >= 4 && LowerChar(f[|f| - 1]) == 'g'
    ensures IsImageName(f) ==> f[|f| - 4] == '.' || (|f| >= 5 && f[|f| - 5] == '.')
  {
    var l := Lower(f);
    EndsWith(l, ".png") || EndsWith(l, ".jpg") || EndsWith(l, ".jpeg")
  }

  /** The test looks at the lower-cased name only, so the case of the name never matters. */
  lemma IsImageNameIgnoresCase(f: string, g: string)
    requires Lower(f) == Lower(g)
    ensures IsImageName(f) <==> IsImageName(g)
  {
  }

  /** The list comprehension of line 157: the entries that pass the test, in listing order. */
  function FilterImages(entries: seq<string>): (kept: seq<string>)
    ensures |kept| <= |entries|
    ensures forall f :: f in kept <==> f in entries && IsImageName(f)
    decreases |entries|
  {
    if entries == [] then []
    else
      var last := entries[|entries| - 1];
      FilterImages(entries[..|entries| - 1]) + (if IsImageName(last) then [last] else [])
  }

  /** Filtering a listing is filtering its two halves and concatenating: relative order is kept. */
  lemma {:induction false} FilterConcat(a: seq<string>, b: seq<string>)
    ensures FilterImages(a + b) == FilterImages(a) + FilterImages(b)
    decreases |b|
  {
    if b == [] {
      assert a + b == a;
    } else {
      var init := b[..|b| - 1];
      assert (a + b)[..|a + b| - 1] == a + init;
      FilterConcat(a, init);
    }
  }

  /** Each entry is kept exactly when it passes the test, and then alone and in place. */
  lemma FilterSingle(f: string)
    ensures FilterImages([f]) == if IsImageName(f) then [f] else []
  {
    assert [f][..0] == [];
  }

  /** Upper-case and mixed-case extensions are accepted: `A.JPG` and `scan.Jpeg` pass. */
  lemma UpperCaseAccepted()
    ensures IsImageName("A.JPG") && IsImageName("scan.Jpeg")
  {
    var a, b := Lower("A.JPG"), Lower("scan.Jpeg");
    assert a[|a| - 4..] == ".jpg" by {
      assert a[1] == '.' && a[2] == 'j' && a[3] == 'p' && a[4] == 'g';
    }
    assert b[|b| - 5..] == ".jpeg" by {
      assert b[4] == '.' && b[5] == 'j' && b[6] == 'p' && b[7] == 'e' && b[8] == 'g';
    }
  }

  /** Other extensions are refused, also when an accepted one occurs earlier: `notes.txt` and `a.png.bak` do not pass. */
  lemma OtherNamesRefused()
    ensures !IsImageName("notes.txt") && !IsImageName("a.png.bak")
  {
    var a, b := Lower("notes.txt"), Lower("a.png.bak");
    assert a[|a| - 1] == 't' && b[|b| - 1] == 'k';
  }
}
