# Phone-case product image generator, modelled in Dafny

The generator takes phone-case pictures with transparency and product
templates with a transparent placeholder. It composites every case into
every template and writes one output file per pair. This project models its
core:

- the configuration merge of `ImageProcessor`;
- the extraction of the case by the alpha channel and its largest contour;
- location of the template's placeholder;
- the per-pair pipeline of `process_images`;
- file discovery (`get_file_paths`) and output naming
  (`generate_output_filename`, `is_valid_image`);
- the batch loop and exit status of the command-line driver.

Modules, one per concern:

| module | file | models |
|---|---|---|
| `Wrappers` | `wrappers.dfy` | `Option` |
| `Text` | `text.dfy` | ASCII `lower`/`upper`, Python string order, `sorted`, `str(int)` |
| `Paths` | `paths.dfy` | `posixpath.basename`, `splitext`, `join` |
| `Utils` | `utils.dfy` | `src/utils.py`: file discovery, `str.format` naming, validity test |
| `Config` | `config.dfy` | the configuration values, defaults and merge |
| `Masks` | `masks.dfy` | threshold masks, first-largest contour, filled mask, `bitwise_and`, fallback box |
| `ImageProcessing` | `image_processor.dfy` | `ImageProcessor` as a class over its `config` map |
| `Cli` | `main.dfy` | `process_batch` and `main` of `src/main.py` |

Where the code changes state, the model does too:

- The constructor runs the merge loop over the defaults.
- `DetectPhoneCase` copies the image into a height x width x 4 byte array in
  BGRA order. It overwrites channel 3 in place and converts back.
- `GetFilePaths`, `ProcessRow`/`ProcessBatch` and `RunMain` are methods with
  the source's loops and early returns.

Each method is proved against a specification function (`WithDefaults`,
`CaseAlpha`, `FilePaths`, `BatchTasks`), and lemmas state what that function
means.

What the code leaves to libraries or the operating system enters as
parameters:

- loading an image (`load`);
- `cv2.findContours` (`findContours`): a mask goes in, a list of contours
  comes out, each with its area, the pixels a filled `drawContours` paints,
  and its `boundingRect`;
- `glob.glob` (`glob`) and `os.path.isfile`/`isdir` (`kindOf`);
- whether the output directory can be created (`outputDirOk`);
- `time.time()`, read once per pair (`clock`);
- resizing, pasting, enhancing and writing the result (`save`). `save`
  receives a `SaveRequest` that describes the composite (template,
  masked case, enhancements, placeholder box, resampling filter) and says
  whether the library calls all succeed.

The fallback placeholder `(w // 4, h // 4, w // 2, h // 2)` lies inside the
template, but it is empty when the template is less than 2 pixels wide or
high. `FallbackBoxFits` states exactly when it is non-empty.

## Model

| member | source | states |
|---|---|---|
| Text.LowerNormalises | src/utils.py:64 | The lower-cased text has no upper-case letter; lower-casing twice equals lower-casing once; text without upper-case letters is unchanged. |
| Text.UpperNormalises | src/image_processor.py:211 | The upper-cased text has no lower-case letter; upper-casing twice equals upper-casing once; text without lower-case letters is unchanged. |
| Text.StrLeTotal | src/utils.py:79 | Any two strings are comparable under Python's code-point order. |
| Text.StrLeReflexive | src/utils.py:79 | Every string is at most itself. |
| Text.StrLeAntisymmetric | src/utils.py:79 | Two strings each at most the other are equal. |
| Text.StrLeTransitive | src/utils.py:79 | The order is transitive. |
| Text.SortStrings | src/utils.py:79 | `sorted` returns an ordered list with exactly the same elements and multiplicities. |
| Text.SortedUnique | src/utils.py:79 | Two ordered lists with the same elements are equal, so the directory listing depends only on which files the patterns matched. |
| Text.Decimal | src/utils.py:127 | The timestamp's text is a non-empty digit string, starting with '0' only for 0. |
| Text.DecimalRoundTrip | src/utils.py:127 | Reading the timestamp's digits back gives the number. |
| Paths.Splitext | src/utils.py:68 | Stem and extension concatenate back to the path. |
| Paths.ExtShape | src/utils.py:68 | An extension is empty or one leading '.' followed by text with no '.' or '/'. |
| Paths.ExtOfBasename | src/utils.py:120-121 | A path has the extension of its last component, and one exists exactly when that component has a dot with a non-dot character before it. |
| Paths.BasenameIsLastComponent | src/utils.py:120-121 | `basename` is a '/'-free suffix of the path, preceded by '/' or by nothing. |
| Paths.Join | src/utils.py:135 | The joined path ends with the second argument. |
| Paths.JoinBasename | src/utils.py:135 | Joining a directory with a '/'-free name gives a path whose last component is that name. |
| Utils.NormalizeExtensionsLowers | src/utils.py:64 | `NormalizeExtensions` keeps the filter's length; each entry is the lower-cased original; a leading dot is neither added nor removed; normalising again changes nothing. |
| Utils.GetFilePaths | src/utils.py:49-81 | The method returns `FilePaths`: a regular file is returned alone exactly when its lower-cased extension passes the filter or the filter is empty, and otherwise nothing is returned. A directory yields the glob matches of every extension, ordered and with the same multiplicities. Anything else yields nothing. |
| Utils.DefaultFilter | src/utils.py:60-70 | Without a filter, a file is kept exactly when its lower-cased extension is .jpg, .jpeg, .png or .webp. |
| Utils.RenderSucceeds | src/utils.py:124-128 | In the model's pattern language, substituting into the pieces `FormatPattern` parses succeeds exactly when every field is named input, template or timestamp. |
| Utils.FormatSucceedsIffWellFormed | src/utils.py:124-128 | In the model's pattern language, `FormatPattern` (`format`) succeeds exactly when the pattern is well formed, so whether it raises depends on the pattern alone, never on the file names or the time. |
| Utils.DefaultPatternName | src/utils.py:103-128 | `FormatPattern` with the default pattern `{input}_{template}` yields input, '_', template. |
| Utils.LiteralPattern | src/utils.py:124-128 | `FormatPattern` uses a pattern without braces verbatim. |
| Utils.DottedExtensionOnce | src/utils.py:131-132 | `DottedExtension` starts with '.'. It is the format itself exactly when the format already starts with '.', and otherwise the format with one '.' in front. A second pass changes nothing. |
| Utils.OutputFilenameShape | src/utils.py:99-135 | `GenerateOutputFilename` yields a name exactly when the pattern is well formed, and the name ends with the formatted name plus the dotted extension. |
| Utils.OutputFilenameOf | src/utils.py:99-135 | When the pattern formats to `name`, `GenerateOutputFilename` gives the output directory joined with `name` and the dotted extension. |
| Utils.DefaultOutputFilename | src/utils.py:99-135 | With the default pattern and a format without a leading dot, `GenerateOutputFilename` gives the output directory joined with `<input stem>_<template stem>` and `.<format>`. |
| Utils.StemIsNameWithoutExtension | src/utils.py:120-121 | The substituted name plus the extension is the last path component, and it contains no '/'. |
| Utils.IsValidImage | src/utils.py:138-157 | Valid exactly when the lower-cased extension is one of the six image extensions, the path is a regular file and it is non-empty; a valid path has a dotted extension. |
| Utils.DefaultAdmittedIsValidExtension | src/utils.py:138-157 | A file the default filter keeps has an extension `is_valid_image` accepts, and it is valid exactly when non-empty. |
| Config.AddMissingIsOverlay | src/image_processor.py:41-43 | The merge loop computes the defaults overlaid by the caller's dictionary. |
| Config.DefaultConfigDistinct | src/image_processor.py:31-38 | The six default keys are distinct. |
| Config.DefaultKeysListed | src/image_processor.py:31-38 | The defaults supply exactly output_quality, output_format, auto_adjust_brightness, auto_adjust_contrast, detect_edges and resize_method. |
| Config.WithDefaultsProperties | src/image_processor.py:30-43 | After the merge `WithDefaults` every default key is present; the caller's keys keep their values, extra keys included; missing default keys get their defaults; no other key is added. |
| Config.WithDefaultsKeys | src/image_processor.py:30-43 | The keys of `WithDefaults` are the caller's keys together with the six default keys. |
| Config.WithDefaultsKeepsComplete | src/image_processor.py:41-43 | `WithDefaults` leaves a dictionary that already has every default key unchanged. |
| Masks.Threshold | src/image_processor.py:86 | Thresholding keeps the shape of the grid. |
| Masks.CaseMaskExact | src/image_processor.py:86 | The case mask is 255 exactly where alpha exceeds 10, and 0 elsewhere. |
| Masks.PlaceholderMaskExact | src/image_processor.py:143 | The placeholder mask is 255 exactly where alpha is at most 100, and 0 elsewhere. |
| Masks.ThresholdComplement | src/image_processor.py:143 | At one level the inverted mask is the bitwise complement of the plain one. |
| Masks.MaxFrom | src/image_processor.py:94 | The left-to-right scan that replaces the best only by a strictly larger area ends on the first contour of largest area. |
| Masks.MaxByArea | src/image_processor.py:94 | `max(contours, key=cv2.contourArea)` picks a contour of largest area, and every earlier contour is strictly smaller. |
| Masks.FirstMaxUnique | src/image_processor.py:151 | Only one index has that property, so the choice is determined by the list. |
| Masks.FilledMask | src/image_processor.py:97-100 | The drawn mask has the image's size. |
| Masks.BitwiseAnd | src/image_processor.py:103 | `bitwise_and` keeps the shape. |
| Masks.RefinedAlphaExact | src/image_processor.py:97-106 | The refined alpha equals the original inside the filled contour and is 0 outside it, so it never exceeds the original. |
| Masks.FallbackBoxFits | src/image_processor.py:156-157 | The centred `FallbackBox` lies inside the template, leaves at least as much room right and below as left and above, and is non-empty exactly when the template is at least 2 pixels wide and high. |
| ImageProcessing.AlphaOf | src/image_processor.py:140 | The alpha grid has the image's height and width. |
| ImageProcessing.ChannelGrid | src/image_processor.py:83 | A channel of the array is a grid of the array's height and width. |
| ImageProcessing.FromBgra | src/image_processor.py:109 | Converting the array back gives a well-formed image of the array's size. |
| ImageProcessing.BgraAlpha | src/image_processor.py:76-83 | Channel 3 of the BGRA copy is the image's alpha. |
| ImageProcessing.FromBgraWithAlpha | src/image_processor.py:106-109 | Converting back restores red, green and blue and takes the alpha from channel 3. |
| ImageProcessing.CaseAlpha | src/image_processor.py:80-106 | The alpha `detect_phone_case` leaves has the image's size. |
| ImageProcessing.CaseAlphaExact | src/image_processor.py:80-106 | With edge detection on and a contour found, a pixel keeps its alpha exactly when it lies in the first contour of largest area, and becomes 0 otherwise. Without either, the alpha is unchanged. No pixel becomes more opaque. |
| ImageProcessing.CaseAlphaCovered | src/image_processor.py:97-106 | If the chosen contour covers every non-transparent pixel, the alpha is unchanged. |
| ImageProcessing.ImageProcessor.constructor | src/image_processor.py:23-43 | The merged configuration is `config or {}` overlaid on the defaults, and it holds every default key. |
| ImageProcessing.ImageProcessor.DetectPhoneCase | src/image_processor.py:65-123 | Size and colour channels are kept and the alpha becomes `CaseAlpha`, refined in place in the BGRA array. The enhancements are brightness then contrast, each factor 1.1, each present exactly when its flag is truthy. |
| ImageProcessing.ImageProcessor.CompositeImages | src/image_processor.py:159-182 | A composite exists exactly when the resize method names a filter. It pastes the case onto the template with that filter. The case goes into the bounding box of the first contour of largest area in the template's alpha <= 100 mask, or, when that mask has no contour, into the centred fallback box, which lies inside the template. |
| ImageProcessing.ImageProcessor.ProcessImages | src/image_processor.py:184-226 | A failed load returns False with no save. True means a save was attempted and succeeded. The attempted save is the `PipelineSave` of the paths: it goes to the output path with the normalised format, the configured quality, the configured filter, the template as base and the placeholder box, and the pasted case is the loaded case with its colours, the alpha `CaseAlpha` gives and the enhancements the flags select. The save is attempted whenever both images load and the format and filter lookups succeed. |
| ImageProcessing.PipelineSaveUnique | src/image_processor.py:184-226 | The paths, the configuration, `load` and `findContours` determine the save `process_images` attempts: two requests that are both its `PipelineSave` are equal, down to every pixel of the masked case. |
| ImageProcessing.ImageProcessor.FindTemplatePlaceholder | src/image_processor.py:125-157 | The placeholder is the bounding box of the first contour of largest area in the alpha <= 100 mask, or, with no contour, the fallback box, which lies inside the template. |
| ImageProcessing.OpaqueTemplateFallback | src/image_processor.py:143-157 | A template whose alpha is everywhere above 100 gives an all-zero mask; if no contour is found in it, the placeholder is the fallback box. |
| ImageProcessing.NormalizeFormatJpeg | src/image_processor.py:211-213 | `NormalizeFormat` gives "JPEG" exactly when the upper-cased format is "JPG" or "JPEG". |
| ImageProcessing.NormalizeFormatCanonical | src/image_processor.py:211-213 | `NormalizeFormat` depends only on the upper-cased format, has no lower-case letter, and normalising its result again changes nothing. |
| ImageProcessing.ResizeFilterByName | src/image_processor.py:174 | `ResizeFilter` depends only on the upper-cased name. Within the model's six-entry filter table, a name selects a filter exactly when it upper-cases to one of the six filter names. |
| ImageProcessing.CommandLineFormats | src/main.py:43-45 | `NormalizeFormat` maps png, jpg, jpeg and webp to the PNG, JPEG, JPEG and WEBP encoders. |
| ImageProcessing.CommandLineResizeMethods | src/main.py:59-61 | `ResizeFilter` selects its filter for each of the six resize choices. |
| Cli.BuildConfigComplete | src/main.py:139-148 | `BuildConfig` supplies every default key, so the merge adds nothing. Edge detection is on exactly without `--no-edge-detection`, both enhancements are on, and quality, format and resize method come from the arguments. |
| Cli.TaskAt | src/main.py:96-101 | Call number k pairs the case in row `RowOf(k, \|templates\|)` with the template in column `ColumnOf(k, \|templates\|)` of the row-major order, and its output path is the generated name at that call's time. |
| Cli.RowColumnDivMod | src/main.py:96-101 | `RowOf` and `ColumnOf` are k / \|templates\| and k % \|templates\|. |
| Cli.BatchTaskAt | src/main.py:90-108 | There are exactly \|cases\| * \|templates\| calls. Position k = i * \|templates\| + j is case i with template j: every pair is processed once, in case-major order. |
| Cli.CountTrue | src/main.py:104-105 | The count is at most the number of calls; it equals that number exactly when all succeed and is 0 exactly when none does. |
| Cli.AllCallsSucceed | src/main.py:97-108 | When every image of every call loads, the configured filter and format are known and every save succeeds, every call is counted as a success. |
| Cli.RecordedDetermined | src/main.py:97-105 | A call's record fixes both its save request and its result, so whether a pair counts depends only on the task, the configuration and the oracles. |
| Cli.AllRecordedDetermined | src/main.py:97-108 | Two records of the same calls agree on every result and request, so the count `process_batch` returns is determined. |
| Cli.ProcessRow | src/main.py:97-108 | The inner loop raises before its first call exactly when the pattern is malformed and there is a template. Otherwise it extends the calls by one row, in order, keeping the success count and recording each call's save as the `PipelineSave` of its task, as `Cli.ProcessBatch` states. |
| Cli.ProcessBatch | src/main.py:75-111 | A malformed pattern raises before any image is processed, whenever there is a pair. Otherwise the calls are exactly `BatchTasks` and the result is the number of successful calls. Each call's result is the success of the save it attempted. That save is the `PipelineSave` of the call's paths: output path, format, quality, filter, template, placeholder box and masked case. It is attempted exactly when both images load and the configured filter and format are known. When every image loads, those lookups succeed and every save succeeds, the result is the number of pairs. |
| Cli.ExitStatus | src/main.py:176 | The process exits with 0 exactly when `main` returned 0; a usage error or an uncaught exception never exits with 0. |
| Cli.RunMain | src/main.py:114-172 | A quality outside 1..100 is a usage error. No case or no template returns 1. An uncreatable output directory, or a pattern `format` rejects, crashes. Otherwise every pair is processed and `main` returns 0, however many pairs failed. |

## Left out

- Loading images (`Image.open`, `convert('RGBA')`): the `load` parameter; a failed load is `None`.
- `cv2.findContours`, `contourArea`, `drawContours` and `boundingRect`: these are OpenCV algorithms. Contours come from the `findContours` parameter, carrying the area, the filled pixels and the bounding box.
- Resizing, pasting with the case as mask, `ImageEnhance` and encoding: these are library image processing. The model describes them (`Composite`, `Enhancement`, `SaveRequest`) and leaves their success to the `save` parameter. Any exception they raise counts as a failed save, as the source's catch-all makes it.
- `brightness_factor` and `contrast_factor` reach the configuration but are never read; the enhancements use 1.1, as the code does.
- Logging, `setup_logger`, the `tqdm` progress bar, elapsed time and `os.path.abspath` in the final messages: output only.
- `ensure_directory`: the `outputDirOk` parameter; a failure there is an uncaught exception.
- argparse: parsing and the `choices` checks are taken as done. `Args` is the parsed result, and only the quality check in `parse_arguments` is modelled.
- Utils.FormatPattern: supports `{{`, `}}` and the fields `{input}`, `{template}`, `{timestamp}`. Format specifications (`{input:>8}`), conversions (`{input!r}`) and attribute or index fields are treated as errors, although Python accepts them.
- Utils.RenderSucceeds: its "exactly when" holds in the model's pattern language; Python also accepts the format specifications and conversions listed under Utils.FormatPattern.
- Utils.FormatSucceedsIffWellFormed: the same limit as Utils.RenderSucceeds.
- Text.LowerNormalises, Text.UpperNormalises: about ASCII letters only; Python's full Unicode case mapping is not modelled.
- ImageProcessing.ResizeFilter: accepts only the six filter names; `getattr(Image, …)` would also return other upper-case attributes of the `PIL.Image` module.
- ImageProcessing.ResizeFilterByName: its "exactly when" holds for the six-name table; `getattr(Image, "AFFINE")`, for one, also returns a value in Python.
- ImageProcessing.ImageProcessor.constructor: the merge writes into the caller's dictionary in place; the model builds a new map and ignores that aliasing.
- Paths: POSIX path rules only; Windows separators and drive letters are not modelled.
- `glob.glob` pattern matching: the `glob` parameter.
- Cli.ProcessBatch: the `process_images` outcome depends on `load` and `save` as fixed functions, so the files are assumed not to change during the batch.
