# add_noise: a Dafny model of the noise-augmentation script

`add_noise.py` walks a folder of images and writes two files for each one. The first is a
noisy copy: Gaussian noise is added to the colour channels in the [0, 1] domain, clipped and
quantised back to bytes. The second is a side-by-side comparison figure. This project models
the logic under that glue, over exact arithmetic:

- **Imaging** (`imaging.dfy`) is the per-pixel transform and the channel policy.
  - Only the mode `"RGBA"` takes the alpha path. There the alpha plane is split off and
    merged back unchanged, and noise goes to the three RGB channels only.
  - Any other image decoded to a 2-D array (grey) is stacked into three equal channels.
    A 3-D array is used as decoded.
  - Every colour byte `v` becomes `v / 255`, gets its noise sample added, is hard-clipped to
    [0, 1], and is cast to uint8 with `(x * 255).astype(uint8)`. The cast truncates.
  - Images are grids (`seq` of rows) of cells. The noise is any real-valued function of
    (row, column, channel), so every property holds for every noise draw.
- **PathNames** (`path_names.dfy`) covers the parts of `os.path` used to name outputs:
  `basename`, `splitext` and `join`. It follows the Windows flavour, where `\` and `/` both
  separate components, because the configured folders are Windows paths.
- **FileFilter** (`file_filter.dfy`) is the input filter of line 157. A name is kept when its
  lower-cased form ends in `.png`, `.jpg` or `.jpeg`. Kept names stay in listing order.
- **Pipeline** (`pipeline.dfy`) holds `add_noise_with_alpha`, the two output-name rules and
  the batch loop.
  - Noisy files are `stem + "_noisy.png"` for RGBA and `stem + "_noisy.jpg"` otherwise.
  - Comparison files are `"comparison_" + stem + ".png"`.
  - `RunBatch` is the `for` loop of lines 162-185 with `success_count` and
    `comparison_count`. It is proved against the per-item function `ProcessItem`.
  - Decoding, writing and rendering are foreign calls. Each enters as a per-file
    `Environment`: the decoded image or `None`, the noise, and whether writing and
    rendering succeed.

Quantisation truncates. `(x * 255).astype(np.uint8)` casts toward zero and does not round.
`QuantizeTruncates` shows an input where rounding would give 101 instead of 100. The zero-noise
round trip still holds under truncation, because `floor((v / 255) * 255) = v` in exact arithmetic.

The check `original_img is not None and noisy_img is not None` (line 177) always holds after
a success, because a successful call returns both images. The model therefore renders the
comparison for every success.

Output names depend only on the stem, not on the input's extension. Two listed files such as
`x.png` and `x.jpg` therefore get the same comparison file, and for any mode other than `RGBA`
also the same noisy file. The later file overwrites the earlier one, yet `success_count` counts
both. `SameStemOverwrites` states this.

## Model

| member | source | states |
|---|---|---|
| `Imaging.Normalize` | add_noise.py:33 | `v / 255.0` lies in [0, 1], and scaling it by 255 gives `v` back exactly |
| `Imaging.Clip` | add_noise.py:37 | `np.clip(x, 0, 1)` lies in [0, 1]; it is the identity inside, 0 below and 1 above: a hard clamp, not a rescale |
| `Imaging.Quantize` | add_noise.py:38 | the uint8 cast of `y * 255` for clipped `y` is an integer in 0..255 that is at most `y * 255` and within 1 of it, i.e. truncation |
| `Imaging.NoiseFreeValue` | add_noise.py:33-38 | with a zero noise sample, normalise, clip and truncate return every byte `v` unchanged |
| `Imaging.NoisyValueMonotone` | add_noise.py:36-38 | a larger noise sample never gives a smaller output byte |
| `Imaging.NoiseSaturates` | add_noise.py:37-38 | a sample of at least 1 always gives 255, one of at most -1 always gives 0, whatever the input byte |
| `Imaging.QuantizeTruncates` | add_noise.py:38 | byte 100 with sample 0.9/255 gives 100, where rounding would give 101 |
| `Imaging.NoisyValue` | add_noise.py:33-38 | one colour byte through normalise, add, clip and cast: zero noise returns the byte, a sum of at least 1 gives 255 and a sum of at most 0 gives 0; `NoiseFreeValue`, `NoisyValueMonotone` and `NoiseSaturates` state the rest |
| `Imaging.AddNoiseGrid` | add_noise.py:36-38 | the noisy array has the colour array's shape (the noise is drawn with that shape) and each element is the noisy value of the same element under its own sample |
| `Imaging.Promote` | add_noise.py:54-55 | a 2-D array becomes a 3-D one with the same rows and columns and three channels, each equal to the grey value |
| `Imaging.DropAlpha` | add_noise.py:28 | converting RGBA to RGB keeps rows and columns and the first three channels of every pixel |
| `Imaging.AlphaPlane` | add_noise.py:29 | the last band of an RGBA image is the plane of fourth channels, with the image's rows and columns |
| `Imaging.MergeAlpha` | add_noise.py:42 | merging gives four channels per pixel: the three colour channels, then the alpha value |
| `Imaging.ColourArray` | add_noise.py:26-29 | the array the noise is added to keeps the image's rows and columns; it has three channels for RGBA (alpha dropped) and for a 2-D array (promoted, lines 53-55), and is the decoded array itself for any other 3-D array |
| `Imaging.NoisyArray` | add_noise.py:26-60 | the noisy array keeps rows and columns on every path; the channel count is 4 for RGBA, 3 for a 2-D array and unchanged for other 3-D arrays. `AlphaPreserved`, `GrayscalePromoted` and `NoiseFreeRoundTrip` state its contents |
| `Imaging.NoiseFreeGrid` | add_noise.py:57-60 | zero noise leaves every colour array unchanged |
| `Imaging.AlphaPreserved` | add_noise.py:26-42 | in the RGBA path the output keeps shape and four channels, its alpha plane equals the input's element for element, and its RGB part is the noisy RGB of the input |
| `Imaging.GrayscalePromoted` | add_noise.py:53-60 | a non-RGBA 2-D array comes out with the same rows and columns and three channels; with zero noise it is the promoted plane, three equal channels per pixel |
| `Imaging.NoiseFreeRoundTrip` | add_noise.py:26-60 | a zero-noise run returns the decoded bytes exactly: the whole array for RGBA and 3-D arrays, the promoted plane for 2-D arrays |
| `PathNames.RFind` | add_noise.py:45 | the index of the last occurrence of a character, or -1 when it does not occur |
| `PathNames.LastSep` | add_noise.py:45 | the index of the last `\` or `/`, or -1 |
| `PathNames.Basename` | add_noise.py:45 | `basename` is the longest separator-free suffix of the path |
| `PathNames.SplitExtRoot` | add_noise.py:97 | `splitext(p)[0]` is a prefix of `p`; anything removed is a dot followed by dot-free, separator-free text, and the last component keeps a non-dot character before it; conversely, when the last dot follows the last separator and a non-dot character precedes it in the last component, exactly the part from that dot on is removed |
| `PathNames.Stem` | add_noise.py:45 | the stem of a path contains no separator |
| `PathNames.JoinPath` | add_noise.py:46 | `join(dir, name)` starts with `dir`, ends with `name` right after a separator unless it is `name` alone, and adds at most one character between them |
| `PathNames.BasenameOfJoin` | add_noise.py:166 | a separator-free name joined to any folder is the basename of the result |
| `PathNames.SplitExtRootOfName` | add_noise.py:97 | a name `root + ext`, with a dot-free extension and a root that is not all dots, has root `root`; earlier dots stay |
| `PathNames.SplitExtRootLeadingDots` | add_noise.py:97 | a name whose only dots lead it, such as `.png`, has no extension to remove |
| `PathNames.StemOfJoined` | add_noise.py:45 | a file `root + ext` in any folder has stem `root`: only the last extension is removed |
| `PathNames.StemKeepsInnerDots` | add_noise.py:45 | `scan.01.png` in any folder has stem `scan.01` |
| `PathNames.StemKeepsLeadingDot` | add_noise.py:45 | `.png` in any folder has stem `.png` |
| `FileFilter.Lower` | add_noise.py:157 | `lower()` keeps the length and lower-cases every ASCII capital in place |
| `FileFilter.IsImageName` | add_noise.py:157 | a kept name has at least four characters, ends in `g` or `G`, and has a dot four or five characters from its end; `UpperCaseAccepted`, `OtherNamesRefused` and `IsImageNameIgnoresCase` state the rest |
| `FileFilter.LowerIdempotent` | add_noise.py:157 | lower-casing twice is lower-casing once |
| `FileFilter.IsImageNameIgnoresCase` | add_noise.py:157 | two names with the same lower-cased form are both kept or both dropped |
| `FileFilter.FilterImages` | add_noise.py:157 | a name is in the filtered list exactly when it is in the listing and its lower-cased form ends in `.png`, `.jpg` or `.jpeg`; the list is no longer than the listing |
| `FileFilter.FilterConcat` | add_noise.py:157 | filtering a listing equals filtering its two halves and concatenating, so kept names keep their listing order |
| `FileFilter.FilterSingle` | add_noise.py:157 | a one-entry listing is kept when the name passes and dropped otherwise |
| `FileFilter.UpperCaseAccepted` | add_noise.py:157 | `A.JPG` and `scan.Jpeg` pass the filter |
| `FileFilter.OtherNamesRefused` | add_noise.py:157 | `notes.txt` and `a.png.bak` do not pass |
| `Pipeline.SuffixFacts` | add_noise.py:45-62 | `_noisy.png` and `_noisy.jpg` are different, ten characters long and separator-free |
| `Pipeline.NoisyName` | add_noise.py:45-62 | the noisy name is the stem plus a ten-character suffix; the suffix is `_noisy.png` exactly when the mode is `RGBA` and `_noisy.jpg` exactly when it is not; the name has no separator |
| `Pipeline.ComparisonName` | add_noise.py:97 | the comparison name is `comparison_`, then `splitext(filename)[0]`, then `.png` |
| `Pipeline.ComparisonSharesStem` | add_noise.py:97 | for a listed file, the comparison name carries the same stem as the noisy image's name |
| `Pipeline.ComparisonIgnoresExtension` | add_noise.py:97 | `root + ext1` and `root + ext2` give the same comparison name `comparison_root.png`, whatever the input's extension |
| `Pipeline.NoisyNameIgnoresExtension` | add_noise.py:45-62 | `root + ext1` and `root + ext2` in the same folder and of the same mode give the same noisy name |
| `Pipeline.NoisyNameByMode` | add_noise.py:45-62 | two modes that are both `RGBA` or both not give the same noisy name |
| `Pipeline.AddNoiseWithAlpha` | add_noise.py:20-71 | the call succeeds exactly when decoding and writing succeed; on success it returns the decoded image and the noisy array of the channel policy |
| `Pipeline.NoisyPathBasename` | add_noise.py:45-47 | a successful call writes into the output folder: the path is the output folder joined with the noisy name, starts with that folder, and has the noisy name as basename |
| `Pipeline.CreateSimpleComparison` | add_noise.py:73-108 | the call succeeds exactly when rendering succeeds, and the written path is the comparison folder joined with the comparison name |
| `Pipeline.ComparisonNameNoSep` | add_noise.py:97 | the comparison name of a listed, separator-free file name has no separator |
| `Pipeline.ComparisonPathBasename` | add_noise.py:96-98 | the comparison of a listed file is written into the comparison folder, and its basename is the comparison name |
| `Pipeline.ProcessItem` | add_noise.py:170-185 | an item fails exactly when decoding or writing fails, and gets a comparison exactly when decoding, writing and rendering all succeed |
| `Pipeline.Reports` | add_noise.py:165-185 | there is one report per listed file |
| `Pipeline.ReportsStep` | add_noise.py:165-185 | processing one more file appends exactly that file's report |
| `Pipeline.ReportsConcat` | add_noise.py:165-185 | the reports of a listing are the reports of its two halves, concatenated |
| `Pipeline.NoisedCount` | add_noise.py:172-173 | the final `success_count`: one per report that is not a failure. Its properties are stated by the lemmas `CountsStep`, `CountsConcat`, `CountsExtremes` and `CountersOrdered` |
| `Pipeline.ComparedCount` | add_noise.py:179-180 | the final `comparison_count`: one per completed report. Its properties are stated by the same lemmas |
| `Pipeline.CountsExtremes` | add_noise.py:165-185 | no success exactly when every file failed and N successes exactly when none did; no comparison exactly when no item completed and N exactly when all did |
| `Pipeline.CountsStep` | add_noise.py:172-180 | one more report raises `success_count` only for a success and `comparison_count` only for a completed comparison |
| `Pipeline.CountersOrdered` | add_noise.py:162-185 | `comparison_count <= success_count <= N` |
| `Pipeline.CountsConcat` | add_noise.py:165-185 | both counters add up over consecutive parts of the listing |
| `Pipeline.FailedReportCountsNothing` | add_noise.py:184-185 | a failed item between other items adds to neither counter |
| `Pipeline.FailureIsolated` | add_noise.py:165-185 | inserting a failing file anywhere in the listing leaves both counters as they would be without it |
| `Pipeline.DecodeFailuresOnly` | add_noise.py:69-71 | with N files of which M cannot be decoded and every write succeeding, exactly N - M noisy images result |
| `Pipeline.NoisyPathOfItem` | add_noise.py:170-175 | a file that decodes and is written gets a report with the noisy path, the output folder joined with its noisy name |
| `Pipeline.SameStemOverwrites` | add_noise.py:45-62 | two listed files that differ only in extension, both of a mode other than `RGBA`, are written to the same noisy path, and both are counted as successes |
| `Pipeline.RunBatch` | add_noise.py:162-185 | the loop visits every file in order, records each file's report, and ends with `success_count` and `comparison_count` equal to the numbers of successes and completed comparisons, with `comparison_count <= success_count <= N` |
| `Pipeline.ProcessFolder` | add_noise.py:157-185 | the batch runs over exactly the filtered listing, one report per kept file, with the counters of `RunBatch` |

## Left out

- Gaussian sampling (`np.random.randn`) is unseeded randomness. The noise is instead an arbitrary function from (row, column, channel) to a real number. Every draw of the source is the restriction of such a function to the colour array's shape.
- Floating-point behaviour of `/ 255.0`, `+`, `np.clip` and `* 255` is not modelled. The model uses exact reals, and rounding in IEEE doubles can move a value across an integer before truncation.
- PIL decoding, `convert`, `split`, `merge`, `fromarray` and the PNG/JPEG encoders are foreign library calls. Decoding becomes the `decoded` input, and any failure from `convert` to `save` becomes `stored = false`. The bytes on disk, including JPEG's lossy re-encoding, are not modelled.
- The matplotlib drawing in `create_simple_comparison` is plotting I/O. It is reduced to its file name and a success flag.
- `create_comparison_with_borders` (lines 110-154) is never called by the script, so it is not modelled.
- Font settings, the hard-coded folders, `os.makedirs`, `os.listdir` and every `print` are configuration and console I/O. The listing and the folders are parameters, and the per-file reports stand in for the per-file console lines.
- An error while listing the input folder ends the script before the loop. It is not modelled.
- Modes other than `RGBA` are distinguished only by the rank of their array. PIL's per-mode conversions (`P`, `LA`, `CMYK`, ...) are not modelled.
- PathNames.JoinPath: models `ntpath.join` only for a relative second part and a folder that is not a bare drive such as `C:`. The script only joins its configured absolute folders with listed names and derived names.
- PathNames.Basename: drive prefixes without a separator (`C:photo.png`) and UNC share roots are not treated specially. The script's paths always contain a separator before the file name.
- FileFilter.Lower: lower-cases ASCII letters only. Python's `str.lower` also maps other Unicode letters, which the model leaves unchanged.
