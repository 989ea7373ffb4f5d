/**
  The script around the transform: `add_noise_with_alpha` (one image in, one
  noisy image out, or failure), the comparison file name of
  `create_simple_comparison`, and the batch loop with its two counters.
  Decoding, encoding and rendering are foreign library calls; each enters the
  model as an outcome the environment supplies for a file.
 */
module Pipeline {
  import opened Wrappers
  import opened Imaging
  import opened PathNames
  import opened FileFilter

  // ---------------------------------------------------------------------------
  // Output names

  const NoisyPng: string := "_noisy.png"
  const NoisyJpg: string := "_noisy.jpg"

  /** The two suffixes differ, have ten characters and no separator. */
  lemma SuffixFacts()
    ensures |NoisyPng| == |NoisyJpg| == 10 && NoisyPng != NoisyJpg
    ensures NoSep(NoisyPng) && NoSep(NoisyJpg)
  {
    assert NoisyPng[7] != NoisyJpg[7];
    forall k | 0 <= k < 10 ensures !IsSep(NoisyPng[k]) && !IsSep(NoisyJpg[k]) {
      assert NoisyPng[k] in NoisyPng && NoisyJpg[k] in NoisyJpg;
    }
  }

  lemma NoSepConcat(a: string, b: string)
    requires NoSep(a) && NoSep(b)
    ensures NoSep(a + b)
  {
    forall k | |a| <= k < |a + b|
      ensures !IsSep((a + b)[k])
    {
      assert (a + b)[k] == b[k - |a|];
    }
  }

  /** The noisy file's name: the stem with `_noisy.png` for an RGBA image and `_noisy.jpg` for any other mode. */
  function NoisyName(imagePath: string, mode: string): (name: string)
    ensures |name| == |Stem(imagePath)| + 10 && name[..|name| - 10] == Stem(imagePath)
    ensures name[|name| - 10..] == NoisyPng <==> mode == RGBA
    ensures name[|name| - 10..] == NoisyJpg <==> mode != RGBA
    ensures NoSep(name)
  {
    var stem := Stem(imagePath);
    var suffix := if mode == RGBA then NoisyPng else NoisyJpg;
    SuffixFacts();
    NoSepConcat(stem, suffix);
    assert (stem + suffix)[..|stem|] == stem && (stem + suffix)[|stem|..] == suffix;
    stem + suffix
  }

  /** `f"comparison_{os.path.splitext(filename)[0]}.png"`. */
  function ComparisonName(fileName: string): (name: string)
    ensures |name| >= 15 && name[..11] == "comparison_" && name[|name| - 4..] == ".png"
    ensures name[11..|name| - 4] == SplitExtRoot(fileName)
  {
    var root := SplitExtRoot(fileName);
    var name := "comparison_" + root + ".png";
    assert name[..11] == "comparison_" && name[11..|name| - 4] == root && name[|name| - 4..] == ".png";
    name
  }

  /** For a listed file the comparison artifact and the noisy image share the stem, whatever the folder. */
  lemma ComparisonSharesStem(dir: string, fileName: string)
    requires NoSep(fileName)
    ensures ComparisonName(fileName) == "comparison_" + Stem(JoinPath(dir, fileName)) + ".png"
  {
    BasenameOfJoin(dir, fileName);
  }

  /** The comparison is always a `.png`, whatever the extension of the input: `x.jpg`, `x.jpeg` and `x.png` give one name. */
  lemma ComparisonIgnoresExtension(root: string, ext1: string, ext2: string)
    requires NoSep(root) && HasNonDot(root)
    requires |ext1| >= 1 && ext1[0] == '.' && NoDot(ext1[1..]) && NoSep(ext1[1..])
    requires |ext2| >= 1 && ext2[0] == '.' && NoDot(ext2[1..]) && NoSep(ext2[1..])
    ensures ComparisonName(root + ext1) == ComparisonName(root + ext2) == "comparison_" + root + ".png"
  {
    SplitExtRootOfName(root, ext1);
    SplitExtRootOfName(root, ext2);
  }

  /** The noisy name ignores the extension too: `x.png` and `x.jpg` of the same mode give one noisy name. */
  lemma NoisyNameIgnoresExtension(dir: string, root: string, ext1: string, ext2: string, mode: string)
    requires NoSep(root) && HasNonDot(root)
    requires |ext1| >= 1 && ext1[0] == '.' && NoDot(ext1[1..]) && NoSep(ext1[1..])
    requires |ext2| >= 1 && ext2[0] == '.' && NoDot(ext2[1..]) && NoSep(ext2[1..])
    ensures NoisyName(JoinPath(dir, root + ext1), mode) == NoisyName(JoinPath(dir, root + ext2), mode)
  {
    StemOfJoined(dir, root, ext1);
    StemOfJoined(dir, root, ext2);
    var n1, n2 := NoisyName(JoinPath(dir, root + ext1), mode), NoisyName(JoinPath(dir, root + ext2), mode);
    assert n1 == n1[..|n1| - 10] + n1[|n1| - 10..];
    assert n2 == n2[..|n2| - 10] + n2[|n2| - 10..];
  }

  // ---------------------------------------------------------------------------
  // One image

  /** What `add_noise_with_alpha` returns: `(False, None, None, None)` or the path written, the decoded image and the noisy array. */
  datatype Outcome =
    | Failed
    | Succeeded(outputPath: string, original: Loaded, noisy: Grid<seq<Byte>>)

  /**
    `add_noise_with_alpha(image_path, output_path)`. `decoded` is what opening
    and decoding the file gave (`None` when it raised), `noise` the samples the
    generator draws and `stored` whether encoding and writing the output went
    through; any exception makes the whole call fail.
   */
  function AddNoiseWithAlpha(imagePath: string, outputDir: string, decoded: Option<Loaded>, noise: Noise, stored: bool): (o: Outcome)
    ensures o.Succeeded? <==> decoded.Some? && stored
    ensures o.Succeeded? ==> o.original == decoded.value && o.noisy == NoisyArray(decoded.value, noise)
  {
    match decoded
    case None => Failed
    case Some(img) =>
      if stored then Succeeded(JoinPath(outputDir, NoisyName(imagePath, img.mode)), img, NoisyArray(img, noise)) else Failed
  }

  /** The noisy image is written into the output folder under the noisy name. */
  lemma NoisyPathBasename(imagePath: string, outputDir: string, img: Loaded, noise: Noise)
    ensures AddNoiseWithAlpha(imagePath, outputDir, Some(img), noise, true).outputPath == JoinPath(outputDir, NoisyName(imagePath, img.mode))
    ensures AddNoiseWithAlpha(imagePath, outputDir, Some(img), noise, true).outputPath[..|outputDir|] == outputDir
    ensures Basename(AddNoiseWithAlpha(imagePath, outputDir, Some(img), noise, true).outputPath) == NoisyName(imagePath, img.mode)
  {
    var name := NoisyName(imagePath, img.mode);
    var o := AddNoiseWithAlpha(imagePath, outputDir, Some(img), noise, true);
    assert o.outputPath == JoinPath(outputDir, name);
    BasenameOfJoin(outputDir, name);
  }

  /** `create_simple_comparison`: on success the artifact's path (`True`), on a rendering or writing failure `None` (`False`). */
  function CreateSimpleComparison(original: Loaded, noisy: Grid<seq<Byte>>, outputDir: string, fileName: string, rendered: bool): (r: Option<string>)
    ensures r.Some? <==> rendered
    ensures r.Some? ==> r.value == JoinPath(outputDir, ComparisonName(fileName))
  {
    if rendered then Some(JoinPath(outputDir, ComparisonName(fileName))) else None
  }

  /** The fixed parts of the comparison name contain no separator. */
  lemma ComparisonAffixesNoSep()
    ensures NoSep("comparison_") && NoSep(".png")
  {
    forall k | 0 <= k < 11 ensures !IsSep("comparison_"[k]) { assert "comparison_"[k] in "comparison_"; }
    forall k | 0 <= k < 4 ensures !IsSep(".png"[k]) { assert ".png"[k] in ".png"; }
  }

  /** The comparison name of a separator-free file name has no separator. */
  lemma ComparisonNameNoSep(fileName: string)
    requires NoSep(fileName)
    ensures NoSep(ComparisonName(fileName))
  {
    var root := SplitExtRoot(fileName);
    assert NoSep(root) by {
      forall k | 0 <= k < |root| ensures !IsSep(root[k]) { assert root[k] == fileName[k]; }
    }
    ComparisonAffixesNoSep();
    NoSepConcat("comparison_", root);
    NoSepConcat("comparison_" + root, ".png");
  }

  /** A listed file's comparison goes into the comparison folder, and its basename is the comparison name. */
  lemma ComparisonPathBasename(original: Loaded, noisy: Grid<seq<Byte>>, outputDir: string, fileName: string)
    requires NoSep(fileName)
    ensures CreateSimpleComparison(original, noisy, outputDir, fileName, true).value[..|outputDir|] == outputDir
    ensures Basename(CreateSimpleComparison(original, noisy, outputDir, fileName, true).value) == ComparisonName(fileName)
  {
    ComparisonNameNoSep(fileName);
    BasenameOfJoin(outputDir, ComparisonName(fileName));
  }

  // ---------------------------------------------------------------------------
  // The batch

  /** The three configured folders. */
  datatype Folders = Folders(input: string, output: string, comparison: string)

  /** What the outside world does with one listed file: decoding, noise, writing the noisy image and rendering the comparison. */
  datatype Environment = Environment(decoded: Option<Loaded>, noise: Noise, stored: bool, rendered: bool)

  /** What the loop reports for one file: noise failed; noisy image written but comparison failed; or both written. */
  datatype Report =
    | NoiseFailed
    | ComparisonFailed(noisyPath: string)
    | Completed(noisyPath: string, comparisonPath: string)

  /** One pass of the loop body for `fileName`. */
  function ProcessItem(folders: Folders, fileName: string, env: Environment): (r: Report)
    ensures r.NoiseFailed? <==> env.decoded.None? || !env.stored
    ensures r.Completed? <==> env.decoded.Some? && env.stored && env.rendered
  {
    match AddNoiseWithAlpha(JoinPath(folders.input, fileName), folders.output, env.decoded, env.noise, env.stored)
    case Failed => NoiseFailed
    case Succeeded(noisyPath, original, noisy) =>
      match CreateSimpleComparison(original, noisy, folders.comparison, fileName, env.rendered)
      case None => ComparisonFailed(noisyPath)
      case Some(comparisonPath) => Completed(noisyPath, comparisonPath)
  }

  /** The reports of a list of files, one per file, in order. */
  function Reports(folders: Folders, names: seq<string>, env: string -> Environment): (rs: seq<Report>)
    ensures |rs| == |names|
  {
    seq(|names|, k requires 0 <= k < |names| => ProcessItem(folders, names[k], env(names[k])))
  }

  /** The reports of the first `i + 1` files extend those of the first `i` by the report of file `i`. */
  lemma ReportsStep(folders: Folders, names: seq<string>, i: nat, env: string -> Environment)
    requires i < |names|
    ensures Reports(folders, names[..i + 1], env) == Reports(folders, names[..i], env) + [ProcessItem(folders, names[i], env(names[i]))]
  {
    assert names[..i + 1] == names[..i] + [names[i]];
    ReportsConcat(folders, names[..i], [names[i]], env);
  }

  /** How many files got a noisy image: the final `success_count`. */
  function NoisedCount(rs: seq<Report>): nat
  {
    if rs == [] then 0 else NoisedCount(rs[..|rs| - 1]) + (if rs[|rs| - 1].NoiseFailed? then 0 else 1)
  }

  /** How many files got a comparison too: the final `comparison_count`. */
  function ComparedCount(rs: seq<Report>): nat
  {
    if rs == [] then 0 else ComparedCount(rs[..|rs| - 1]) + (if rs[|rs| - 1].Completed? then 1 else 0)
  }

  /** No success exactly when every file failed, N successes exactly when none did; likewise for the comparisons. */
  lemma {:induction false} CountsExtremes(rs: seq<Report>)
    ensures NoisedCount(rs) == 0 <==> forall k :: 0 <= k < |rs| ==> rs[k].NoiseFailed?
    ensures NoisedCount(rs) == |rs| <==> forall k :: 0 <= k < |rs| ==> !rs[k].NoiseFailed?
    ensures ComparedCount(rs) == 0 <==> forall k :: 0 <= k < |rs| ==> !rs[k].Completed?
    ensures ComparedCount(rs) == |rs| <==> forall k :: 0 <= k < |rs| ==> rs[k].Completed?
  {
    if rs != [] {
      var init := rs[..|rs| - 1];
      CountsExtremes(init);
      CountersOrdered(init);
      assert forall k :: 0 <= k < |init| ==> init[k] == rs[k];
    }
  }

  /** `0 <= comparison_count <= success_count <= N` for every run. */
  lemma {:induction false} CountersOrdered(rs: seq<Report>)
    ensures ComparedCount(rs) <= NoisedCount(rs) <= |rs|
  {
    if rs != [] {
      CountersOrdered(rs[..|rs| - 1]);
    }
  }

  /** Appending one report adds its own contribution to each counter. */
  lemma CountsStep(rs: seq<Report>, r: Report)
    ensures NoisedCount(rs + [r]) == NoisedCount(rs) + (if r.NoiseFailed? then 0 else 1)
    ensures ComparedCount(rs + [r]) == ComparedCount(rs) + (if r.Completed? then 1 else 0)
  {
    assert (rs + [r])[..|rs|] == rs;
  }

  /** Counts add up over consecutive parts of the listing. */
  lemma {:induction false} CountsConcat(a: seq<Report>, b: seq<Report>)
    ensures NoisedCount(a + b) == NoisedCount(a) + NoisedCount(b)
    ensures ComparedCount(a + b) == ComparedCount(a) + ComparedCount(b)
    decreases |b|
  {
    if b == [] {
      assert a + b == a;
    } else {
      assert (a + b)[..|a + b| - 1] == a + b[..|b| - 1];
      CountsConcat(a, b[..|b| - 1]);
    }
  }

  /** Reports of a listing split in two are the reports of the two parts. */
  lemma ReportsConcat(folders: Folders, a: seq<string>, b: seq<string>, env: string -> Environment)
    ensures Reports(folders, a + b, env) == Reports(folders, a, env) + Reports(folders, b, env)
  {
    var whole, left, right := Reports(folders, a + b, env), Reports(folders, a, env), Reports(folders, b, env);
    forall k | 0 <= k < |a + b|
      ensures whole[k] == (left + right)[k]
    {
      var f := (a + b)[k];
      assert whole[k] == ProcessItem(folders, f, env(f));
      if k < |a| {
        assert f == a[k] && left[k] == ProcessItem(folders, f, env(f));
      } else {
        assert f == b[k - |a|] && right[k - |a|] == ProcessItem(folders, f, env(f));
      }
    }
  }

  /** Per-item isolation: a failing file adds nothing, and the files before and after it count as if it were not there. */
  lemma FailureIsolated(folders: Folders, before: seq<string>, failing: string, after: seq<string>, env: string -> Environment)
    requires env(failing).decoded.None? || !env(failing).stored
    ensures NoisedCount(Reports(folders, before + [failing] + after, env)) == NoisedCount(Reports(folders, before + after, env))
    ensures ComparedCount(Reports(folders, before + [failing] + after, env)) == ComparedCount(Reports(folders, before + after, env))
  {
    var rb, ra := Reports(folders, before, env), Reports(folders, after, env);
    assert Reports(folders, before + [failing] + after, env) == rb + [NoiseFailed] + ra by {
      ReportsConcat(folders, before + [failing], after, env);
      ReportsConcat(folders, before, [failing], env);
    }
    assert Reports(folders, before + after, env) == rb + ra by {
      ReportsConcat(folders, before, after, env);
    }
    FailedReportCountsNothing(rb, ra);
  }

  /** A failed report between two runs of reports adds to neither counter. */
  lemma FailedReportCountsNothing(a: seq<Report>, b: seq<Report>)
    ensures NoisedCount(a + [NoiseFailed] + b) == NoisedCount(a + b)
    ensures ComparedCount(a + [NoiseFailed] + b) == ComparedCount(a + b)
  {
    CountsStep(a, NoiseFailed);
    CountsConcat(a + [NoiseFailed], b);
    CountsConcat(a, b);
  }

  /**
    Two listed files that differ only in their extension, such as `x.png` and
    `x.jpg`, both of a mode other than RGBA: both are written to the same noisy
    path, so the later overwrites the earlier, yet `success_count` counts both.
   */
  lemma SameStemOverwrites(folders: Folders, root: string, ext1: string, ext2: string, env: string -> Environment)
    requires NoSep(root) && HasNonDot(root)
    requires |ext1| >= 1 && ext1[0] == '.' && NoDot(ext1[1..]) && NoSep(ext1[1..])
    requires |ext2| >= 1 && ext2[0] == '.' && NoDot(ext2[1..]) && NoSep(ext2[1..])
    requires env(root + ext1).decoded.Some? && env(root + ext1).decoded.value.mode != RGBA && env(root + ext1).stored
    requires env(root + ext2).decoded.Some? && env(root + ext2).decoded.value.mode != RGBA && env(root + ext2).stored
    ensures var rs := Reports(folders, [root + ext1, root + ext2], env);
              && !rs[0].NoiseFailed? && !rs[1].NoiseFailed?
              && rs[0].noisyPath == rs[1].noisyPath
              && NoisedCount(rs) == 2
  {
    var f1, f2 := root + ext1, root + ext2;
    var m1, m2 := env(f1).decoded.value.mode, env(f2).decoded.value.mode;
    var r1, r2 := ProcessItem(folders, f1, env(f1)), ProcessItem(folders, f2, env(f2));
    NoisyNameIgnoresExtension(folders.input, root, ext1, ext2, m1);
    NoisyNameByMode(JoinPath(folders.input, f2), m1, m2);
    NoisyPathOfItem(folders, f1, env(f1));
    NoisyPathOfItem(folders, f2, env(f2));
    ReportsOfPair(folders, f1, f2, env);
    TwoSuccessesCounted(r1, r2);
  }

  /** The reports of a two-file listing. */
  lemma ReportsOfPair(folders: Folders, f1: string, f2: string, env: string -> Environment)
    ensures Reports(folders, [f1, f2], env) == [ProcessItem(folders, f1, env(f1)), ProcessItem(folders, f2, env(f2))]
  {
    var names := [f1, f2];
    var rs := Reports(folders, names, env);
    assert names[0] == f1 && names[1] == f2;
    assert rs[0] == ProcessItem(folders, names[0], env(names[0]));
    assert rs[1] == ProcessItem(folders, names[1], env(names[1]));
  }

  /** Two reports that are not failures count as two successes. */
  lemma TwoSuccessesCounted(r1: Report, r2: Report)
    requires !r1.NoiseFailed? && !r2.NoiseFailed?
    ensures NoisedCount([r1, r2]) == 2
  {
    assert [r1, r2] == [r1] + [r2] && [r1] == [] + [r1];
    CountsStep([], r1);
    CountsStep([r1], r2);
  }

  /** Two modes on the same side of the RGBA test give one noisy name. */
  lemma NoisyNameByMode(imagePath: string, m1: string, m2: string)
    requires (m1 == RGBA) == (m2 == RGBA)
    ensures NoisyName(imagePath, m1) == NoisyName(imagePath, m2)
  {
    var a, b := NoisyName(imagePath, m1), NoisyName(imagePath, m2);
    assert a == a[..|a| - 10] + a[|a| - 10..];
    assert b == b[..|b| - 10] + b[|b| - 10..];
  }

  /** A file that decodes and is written gets a noisy image at the output folder joined with its noisy name. */
  lemma NoisyPathOfItem(folders: Folders, fileName: string, e: Environment)
    requires e.decoded.Some? && e.stored
    ensures !ProcessItem(folders, fileName, e).NoiseFailed?
    ensures ProcessItem(folders, fileName, e).noisyPath == JoinPath(folders.output, NoisyName(JoinPath(folders.input, fileName), e.decoded.value.mode))
  {
  }

  /** How many of the files cannot be decoded. */
  function Undecodable(names: seq<string>, env: string -> Environment): nat
  {
    if names == [] then 0 else Undecodable(names[..|names| - 1], env) + (if env(names[|names| - 1]).decoded.None? then 1 else 0)
  }

  /** With N files of which M cannot be decoded, and every write succeeding, exactly N - M noisy images result. */
  lemma {:induction false} DecodeFailuresOnly(folders: Folders, names: seq<string>, env: string -> Environment)
    requires forall k :: 0 <= k < |names| ==> env(names[k]).stored
    ensures Undecodable(names, env) <= |names|
    ensures NoisedCount(Reports(folders, names, env)) == |names| - Undecodable(names, env)
  {
    if names != [] {
      var init, last := names[..|names| - 1], names[|names| - 1];
      assert names == init + [last];
      DecodeFailuresOnly(folders, init, env);
      ReportsConcat(folders, init, [last], env);
      CountsConcat(Reports(folders, init, env), Reports(folders, [last], env));
      assert Reports(folders, [last], env)[..0] == [];
    }
  }

  /**
    Lines 162-185: for each image file in order run the transform, count a
    success, render the comparison only for a success and count it when it
    went through. `reports` holds what is printed per file.
   */
  method RunBatch(folders: Folders, imageFiles: seq<string>, env: string -> Environment)
    returns (successCount: nat, comparisonCount: nat, reports: seq<Report>)
    ensures reports == Reports(folders, imageFiles, env)
    ensures successCount == NoisedCount(reports) && comparisonCount == ComparedCount(reports)
    ensures comparisonCount <= successCount <= |imageFiles|
  {
    successCount, comparisonCount, reports := 0, 0, [];
    for i := 0 to |imageFiles|
      invariant reports == Reports(folders, imageFiles[..i], env)
      invariant successCount == NoisedCount(reports) && comparisonCount == ComparedCount(reports)
    {
      var fileName := imageFiles[i];
      var e := env(fileName);
      var outcome := AddNoiseWithAlpha(JoinPath(folders.input, fileName), folders.output, e.decoded, e.noise, e.stored);
      var report;
      if outcome.Succeeded? {
        successCount := successCount + 1;
        var comparison := CreateSimpleComparison(outcome.original, outcome.noisy, folders.comparison, fileName, e.rendered);
        if comparison.Some? {
          comparisonCount := comparisonCount + 1;
          report := Completed(outcome.outputPath, comparison.value);
        } else {
          report := ComparisonFailed(outcome.outputPath);
        }
      } else {
        report := NoiseFailed;
      }
      assert report == ProcessItem(folders, fileName, e);
      CountsStep(reports, report);
      ReportsStep(folders, imageFiles, i, env);
      reports := reports + [report];
    }
    assert imageFiles[..|imageFiles|] == imageFiles;
    CountersOrdered(reports);
  }

  /** Lines 157-185: keep the image files of the listing, then run the batch over them. */
  method ProcessFolder(folders: Folders, listing: seq<string>, env: string -> Environment)
    returns (imageFiles: seq<string>, successCount: nat, comparisonCount: nat, reports: seq<Report>)
    ensures imageFiles == FilterImages(listing)
    ensures |reports| == |imageFiles| && reports == Reports(folders, imageFiles, env)
    ensures successCount == NoisedCount(reports) && comparisonCount == ComparedCount(reports)
    ensures comparisonCount <= successCount <= |imageFiles|
  {
    imageFiles := FilterImages(listing);
    successCount, comparisonCount, reports := RunBatch(folders, imageFiles, env);
  }
}
