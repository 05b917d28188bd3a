# GEBot core: download bookkeeping and georeferencing

This project models the two halves of the Google Earth imagery bot.

**The image bot** (`ImageDownloader` in `gebot.py`) works through zipped lists of
latitudes, longitudes and ids. For each tile it does four things:

- it requests the tile under a file name built from the id and the coordinates;
- it polls the save folder until the file's size stops changing, and on a stall
  of more than 600 seconds it sends one notice and sets the status to "Stopped";
- it counts the image and shows a status record: seconds per image, the
  estimated finish and the elapsed time, both as days/hours/minutes, and the
  images remaining;
- it takes an extra pause after every `sleep_after` images.

**The georeferencing driver** (`georef.py`) works on a folder of those tiles:

- it reads each tile's centre back from its file name;
- it computes the four corners of the tile and their bounding box on a sphere
  of radius 6378137 m, at 0.17475 m per pixel;
- it names the output folder and each GeoTIFF;
- it processes the sorted listing between `start` and `stop`;
- on request, it names the VRT catalog of the `.tif` files.

Modules, one per file:

- `Common`: Python's exceptions as a `PyError` value, plus `Option` and `Result`.
- `PyText`: `str(int)`, `zfill`, `split`/`join`, `endswith`, string slicing and
  `list.sort()` on strings.
- `PyPath`: POSIX `os.path.join`, `basename`, `splitext`, `normpath` and
  `abspath`. The current directory is a parameter.
- `Progress`: `__sec2dhm__` and `__get_status__`.
- `Polling`: the loop of `__check_download_complete__`, as a state machine over
  the ticks it observes. A tick records whether the file exists, its size, the
  seconds waited and the seconds since the batch began.
- `Downloader`: the tile name, the class `ImageDownloader` and its methods. Each
  method is proved against a fold over the images (`BatchRun`) or over the ticks
  (`Run`), and lemmas state the properties of those folds.
- `Coords`: `lat_long`, `output_corners` and the reduction in `getcoord`, over
  exact reals. The cosine is a parameter.
- `Georef`: `name2latlong`, output naming, slice bounds, the VRT name and
  sources, and `main` as a method with its loop.

The model follows the code as written, including these behaviours a reader
may not expect:

- A file that is present with size 0 on the first poll counts as complete,
  because the recorded previous size starts at 0.
- During the first image the counter is 0. A stall then makes the status update
  divide by zero, which ends the wait and the batch with ZeroDivisionError.
- `sleep_after == 0` raises ZeroDivisionError after the first completed image.
- The aspect-ratio correction `lat_diff` in `output_corners` is always 0: both
  top corners come from the same north offset, so the corners are the plain
  offset points.
- `getcoord` passes the row count as `width` and the column count as `height`.
  A tile with zero rows therefore raises ZeroDivisionError.
- A tile whose name does not parse, or that cannot be read, ends `main` with that
  exception. Later tiles are not processed.
- The VRT lists every `.tif` in the save folder's listing, including files that
  were there before the run.
- For the VRT name, a save path without '/' raises IndexError. That check comes
  before the unbound `geotagger` of an empty selection, which raises
  UnboundLocalError.

## Model

| member | source | states |
|---|---|---|
| Progress.Sec2Dhm | gebot.py:373-391 | hours lie in [0, 24) and minutes in [0, 60), and the triple accounts for the duration to within one minute, for negative durations too |
| Progress.Sec2DhmInverse | gebot.py:388-391 | the split is unique: a well-formed (days, hours, minutes) plus fewer than 60 seconds splits back into exactly that triple |
| Progress.StatusReport | gebot.py:318-328 | the record carries the current status and reports `img_len - 1` images remaining |
| Progress.StatusFigures | gebot.py:318-322 | speed times counter is the elapsed time; the estimate is speed times images remaining, rounded down to whole minutes; the elapsed time is rounded down to whole minutes |
| Progress.GetStatus | gebot.py:299-328 | raises ZeroDivisionError exactly when the counter is 0; otherwise gives the record with the status and the images remaining |
| Polling.FirstEnd | gebot.py:275-287 | finds the first tick that ends the wait, meaning the file shows its recorded size again or a stall raises, and no earlier tick does |
| Polling.Step | gebot.py:275-287 | one pass of the polling loop; a halted wait reads no more ticks. Its properties are stated by `StepNotices` and `RunCharacterised` |
| Polling.Run | gebot.py:271-287 | the wait after the first n ticks, starting from `size_pr` 0 and no notice; characterised against the ticks by `RunCharacterised` |
| Polling.FirstEndStable | gebot.py:275-280 | once found, the first ending tick stays the first as more ticks are read |
| Polling.RunHaltedStable | gebot.py:275 | once the loop condition is false, later ticks change nothing |
| Polling.RunHalting | gebot.py:275-280 | the wait halts exactly at the first ending tick, completed or raised as that tick decides; until then `size_pr` is the last size seen |
| Polling.StepNotices | gebot.py:282-287 | a stalled pass sends the notice only if none was sent, sets "Stopped" and shows the tick's record when the counter is positive; a pass that is not stalled changes none of these |
| Polling.RunNotices | gebot.py:282-287 | after n ticks: one notice and the "Stopped" status exactly when a tick read was past 600 s, with the record of the last such tick on display |
| Polling.RunCharacterised | gebot.py:271-287 | the whole state after n ticks, stated against the ticks: halting, completion, exception, notice, status, display and `size_pr` |
| Polling.WaitEndsAtFirstStableSize | gebot.py:275-287 | with a positive counter the wait never raises, completes iff some tick repeats the recorded size, stops no later than the first such tick, and sends at most one notice, only after a stalled tick |
| Polling.LoopExit | gebot.py:275 | where the loop exits, its state equals the fold over all ticks and the ticks read equal the ticks consumed |
| Polling.WaitSummary | gebot.py:271-287 | completed means the last tick read is the first that repeats its size; pending means no tick does; raised needs a zero counter and a stalled last tick; notice and status follow the stall |
| Polling.AbsentTickKeepsSize | gebot.py:276-280 | a poll that finds no file keeps `size_pr` and cannot complete |
| Polling.GrowingThenStableExample | gebot.py:276-280 | sizes 10, 20, 30, 30 end the wait on the fourth poll |
| Polling.EmptyFileCompletesAtOnce | gebot.py:271-279 | an empty file present on the first poll completes the wait at once, because `size_pr` starts at 0 |
| Polling.LongStallOneNotice | gebot.py:282-286 | a stall across three threshold intervals sends one notice and the wait goes on |
| Polling.FirstImageStallRaises | gebot.py:282-287 | with counter 0 the first stalled poll sends the notice, sets "Stopped" and then raises in the status update |
| Downloader.TileName | gebot.py:243 | the tile's file name; `PaddedId` states the padded id and `Georef.TileNameRoundTrip` that the name parses back to its coordinates |
| Downloader.PaddedId | gebot.py:243 | for id >= 0 the padded id has at least four digits, ends with `str(id)`, still denotes `id`, and is `str(id)` itself once that has four digits |
| Downloader.ZipLen | gebot.py:242 | `zip` runs as far as the shortest list, and no further |
| Downloader.Jobs | gebot.py:242-243 | the i-th pass uses the tile name built from the i-th id, latitude and longitude |
| Downloader.ImageStep | gebot.py:243-259 | one pass of the batch loop: request, wait, then count; its effects are stated by `ImageStepFacts` and `ImageStepRequests` |
| Downloader.ImageDone | gebot.py:251-259 | the end of a pass whose wait completed; `ImageStepFacts` and `PausesStep` state its effects |
| Downloader.BatchRun | gebot.py:242-259 | the bot after the first n images, stopping at the first pass that does not continue; `BatchCounts`, `BatchRequested`, `BatchPauses` and `BatchStatus` state its properties |
| Downloader.ImageStepFacts | gebot.py:242-259 | one pass requests its tile and does at most one image (exactly one when it continues); `img_len` drops by the images done; it pauses on a multiple of `sleep_after`; the status stays "Downloading"/"Stopped" and never leaves "Stopped" |
| Downloader.ImageStepRequests | gebot.py:243-246 | every pass requests exactly its own tile name, whatever the status |
| Downloader.BatchStep | gebot.py:242 | a batch that goes on after i images handles image i next |
| Downloader.BatchHaltedStable | gebot.py:242-259 | after an exception or an unfinished wait, later images change nothing |
| Downloader.PausePointsExact | gebot.py:254-259 | the pause points between two counter values are exactly the multiples of `sleep_after` in that range, in increasing order; there are none for `sleep_after == 0` |
| Downloader.BatchCounts | gebot.py:251-254 | after n images with k completed, the counter has grown by k and `img_len` has shrunk by k, with k = n while the batch goes on |
| Downloader.BatchRequested | gebot.py:242-246 | the names requested are the tile names of the first images, in order, one per image handled |
| Downloader.PausesStep | gebot.py:254-259 | one pass keeps the pauses equal to the multiples of `sleep_after` passed since the batch began |
| Downloader.BatchPauses | gebot.py:254-259 | the pauses taken in a batch are the multiples of `sleep_after` among the counter values it passed |
| Downloader.BatchStatus | gebot.py:238-287 | during a batch the status is "Downloading" or "Stopped" and never returns from "Stopped"; at most one notice per image |
| Downloader.RemainingReported | gebot.py:251-255 | while the batch goes on, the record shown after image n reports `len(img_id) - n - 1` images remaining |
| Downloader.ZeroSleepAfterRaises | gebot.py:257 | with `sleep_after == 0` the batch ends at its first image, unfinished or with ZeroDivisionError, and always with ZeroDivisionError when that image's wait completes |
| Downloader.ImageDownloader.constructor | gebot.py:160-174 | a new bot has status "STOPPED", `img_len` 0, counter 0, no notices, nothing requested, and the window showing its fixed start-up record (`None`) |
| Downloader.ImageDownloader.UpdateStatus | gebot.py:291-297 | succeeds exactly when the counter is positive, and then shows the status record; nothing else changes |
| Downloader.ImageDownloader.CheckDownloadComplete | gebot.py:261-289 | the loop's effect is the fold over the ticks; completion is at the first tick that repeats its size, pending means none did, raised means counter 0 and a stall; one notice and "Stopped" exactly when a tick read was stalled |
| Downloader.ImageDownloader.CountImage | gebot.py:251-259 | decrements `img_len`, increments the counter, shows the record, and pauses on a multiple of `sleep_after` (raises for 0) |
| Downloader.ImageDownloader.DownloadTile | gebot.py:243-259 | one loop pass changes the bot as one step of the batch fold |
| Downloader.ImageDownloader.DownloadAll | gebot.py:242-259 | the loop changes the bot as the batch fold over all zipped images, stopping at the first pass that does not continue |
| Downloader.ImageDownloader.DownloadImages | gebot.py:238-259 | resets status to "Downloading" and `img_len` to the number of ids, then behaves as the batch fold over the zipped lists |
| Coords.LatLong | georef.py:188-197 | raises ZeroDivisionError exactly when `R cos(lat)` is 0; the altitude is 0 |
| Coords.LatitudeDependsOnNorth | georef.py:191-197 | the new latitude depends only on the latitude and the north offset |
| Coords.LongitudeDependsOnEast | georef.py:191-197 | the new longitude depends only on the latitude, the longitude and the east offset |
| Coords.ZeroOffset | georef.py:188-197 | a zero offset returns the point itself |
| Coords.OffsetSymmetry | georef.py:191-197 | opposite offsets move by equal amounts in opposite directions; positive offsets move north and (for positive cosine) east |
| Coords.OutputCorners | georef.py:225-235 | raises ZeroDivisionError exactly when the cosine is 0 or `width` is 0 |
| Coords.CornersUncorrected | georef.py:231-233 | the correction `lat_diff` is 0, so the corners are the four plain offset points |
| Coords.CornerSymmetry | georef.py:225-235 | for any offsets and a non-zero cosine the top corners share a latitude, the bottom corners share one mirrored about the centre, and right and left corners mirror each other in longitude |
| Coords.CornerLayout | georef.py:225-235 | with non-negative offsets and a positive cosine each corner lies where its name says, symmetric about the centre |
| Coords.Max4 | georef.py:270-273 | the maximum is one of the four values and bounds them all |
| Coords.Min4 | georef.py:270-273 | the minimum is one of the four values and is bounded by them all |
| Coords.Bounds | georef.py:270-273 | the box contains all four corners and each side is attained by a corner |
| Coords.BoundsOfLayout | georef.py:270-273 | for corners laid out as named, north/south/west/east come from the top-left, bottom-left, top-left and top-right corners |
| Coords.HalfExtent | georef.py:267 | half the ground extent is non-negative for a non-negative resolution |
| Coords.GetCoord | georef.py:265-273 | raises ZeroDivisionError exactly when the cosine is 0 or the image has no rows; otherwise gives a box with north >= south and east >= west |
| Coords.CentredBox | georef.py:265-273 | the box spans the top-left to bottom-right corner and is centred on the given point |
| Coords.GetCoordCentred | georef.py:263-275 | the box `getcoord` returns is centred on the tile's parsed centre |
| Georef.Name2LatLong | georef.py:252 | succeeds exactly when the stem has 3 or more '_' fields and both converted fields parse; the result is those floats; IndexError or ValueError in Python's left-to-right order otherwise |
| Georef.MarkedFields | georef.py:252 | the fields of "head_<m1><lat>_<m2><lon>" are exactly those three, and dropping the two-character markers gives back the coordinate text |
| Georef.PaddedIdChars | gebot.py:243 | the padded id contains no '_' and no '/' |
| Georef.TileNameStem | georef.py:252 | dropping the extension from a tile name leaves the name without ".png" |
| Georef.TileNameRoundTrip | georef.py:252 | a file name the download bot builds splits back into exactly three fields whose coordinate text is what it was built from |
| Georef.TileNameParses | georef.py:252 | parsing a tile name converts exactly the latitude and longitude text it was built from |
| PyText.SortStrings | georef.py:333 | the listing is sorted lexicographically and is a permutation of the original |
| Georef.SliceBound | georef.py:342 | a resolved bound lies within the list, and a bound already inside it is kept |
| Georef.SliceBoundResolves | georef.py:342 | `-k` resolves to the k-th position from the end; bounds past either end are clamped; among bounds of one sign a larger bound never resolves earlier |
| Georef.Selected | georef.py:335-342 | the selection is no longer than the listing and holds only listed images; its elements are given by `SelectedElements` |
| Georef.SelectedElements | georef.py:335-342 | the selection is the contiguous run of the sorted listing between the resolved bounds |
| Georef.SelectedAll | georef.py:335-342 | with no `start` and no `stop`, every image is processed |
| Georef.SelectedEmpty | georef.py:342 | a start at or after the stop selects nothing |
| Georef.SelectedResume | georef.py:335-342 | processing [a, b) and then from b covers exactly the run from a, each image once, in order |
| Georef.DefaultFolder | georef.py:323-324 | the default folder name; `DefaultSaveFolderName` states it is the last segment of the save path |
| Georef.ParentFolder | georef.py:326 | the absolute parent of the image folder; `DefaultSavePath` states it for "dir/folder" |
| Georef.SavePath | georef.py:323-327 | the save path; `DefaultSavePath`, `DefaultSaveFolderName` and `GivenSavePath` state its form |
| Georef.DefaultSavePath | georef.py:323-327 | for "dir/folder" the default save path is the absolute `dir` joined with "folder_GEOTAGGED", beside the image folder |
| Georef.DefaultSaveFolderName | georef.py:323-327 | the save folder's last segment is the image folder's basename plus "_GEOTAGGED" |
| Georef.GivenSavePath | georef.py:326-327 | a given folder name without '/' is the save path's last segment |
| Georef.OutputPath | georef.py:296 | the GeoTIFF path for an image; `OutputPathName` states its file name |
| Georef.OutputPathName | georef.py:296 | a listed image yields "<stem>.tif" as the GeoTIFF's file name |
| Georef.VrtName | georef.py:356-359 | raises IndexError exactly when the save path has no '/'; otherwise the name ends with "_output.vrt" |
| Georef.VrtNameOf | georef.py:356-359 | for a save path ".../a/b" the catalog is "a_<b up to its first '_'>_output.vrt" |
| Georef.VrtPath | georef.py:359 | the catalog path beside the save folder; `VrtPathName` states that it keeps its file name |
| Georef.VrtPathName | georef.py:359 | the catalog keeps its file name after `abspath` |
| Georef.TifSources | georef.py:309 | the sources are exactly the listed files ending in ".tif", joined onto the folder |
| Georef.Geotag | georef.py:286-305 | a tile is written exactly when its name parses, the image reads, it has rows and the cosine of its latitude is non-zero; the box is well-ordered; the path is the save folder plus "<stem>.tif"; the size is columns by rows; otherwise the error is the name's error, then ReadFailure for an unreadable image, then ZeroDivisionError |
| Georef.GeotagOutputName | georef.py:296 | every GeoTIFF is named after the image it comes from |
| Georef.Tagged | georef.py:342-352 | the images treated in order, stopping at the first that raises; `TaggedFacts` and `TaggedStops` state its properties |
| Georef.TaggedFacts | georef.py:342-352 | the run writes every image before the first failure, in order, and ends with that image's exception; without an exception it writes all of them |
| Georef.TaggedStops | georef.py:342-352 | once an image has raised, later images change nothing |
| Georef.GeotagImages | georef.py:340-352 | the loop's results equal the stop-at-first-exception fold over the selected images |
| Georef.Georeference | georef.py:319-359 | the files written are the GeoTIFFs of the selected sorted images up to the first failure, which ends the run with its error. After a full run with `vrt`, the result is one of three: the catalog at the parent of the save folder listing its `.tif` files; IndexError from the name; or UnboundLocalError for an empty selection |

## Left out

- The GUI automation (`pyautogui` clicks, typing, the search box) is not modelled. A requested download is recorded as its file name in `requested`.
- The `tkinter` status window is not modelled. The record last shown is kept in `display`.
- Downloader.ImageDownloader.constructor: the fixed start-up record (status "Running" and placeholder texts) is represented by `None` in `display`. Its text is not modelled.
- The SMTP notice (`process_stopped`) is not modelled. Notices are counted in `notices`.
- `get_dates`, the Fernet-encrypted configuration and the JSON config file are outside the modelled core.
- `main.py`, `georef_batch.py`, `getLoc.py`, `guiHandler.py`, `notificationHandler.py`, `statusIndicator.py` and `utils.py` are not part of this model. Neither is argument parsing, including how a `--vrt` string becomes a boolean.
- The clock and `time.sleep` are inputs. Each poll is a `Tick` with the seconds waited and the seconds since the batch began. The 2-second sleep after each image and the 1-second sleep of each poll leave no trace. The `sleep_time` pause after every `sleep_after` images is recorded only as the counter value it follows, not as time.
- Polling.Stalling: the seconds waited are a whole number, while the source compares a float with 600. Taking the ceiling of the float gives the same decision, since a float x exceeds 600 exactly when its ceiling does.
- `exists` and `getsize` are read from the ticks, and a wait that runs out of ticks ends as `Pending`. The source would poll forever.
- Progress.StatusReport: elapsed time is whole seconds rather than a float. The days/hours/minutes split is the same for the floor of a float, but the speed is computed from whole seconds.
- Progress.StatusReport: `round(speed, 2)` and the string formatting of the record are not modelled. The record keeps the numbers.
- Coords.LatLong: floating point is modelled as exact reals, and `math.cos` is a parameter. No rounding and no particular cosine values are modelled.
- Coords.GetCoord: `cv2.imread`/`cvtColor` are left out. Only the image's shape is read, through `Env.read`. A tile that cannot be decoded is the error `ReadFailure`.
- Georef.Name2LatLong: Python's `float()` is the parameter `toFloat`. Its `None` stands for ValueError.
- Georef.Geotag: rasterio's transform, CRS, band reordering and file writing are not modelled. The result records the path, box, width and height handed to the writer.
- Georef.TifSources: `gdal.BuildVRT` is not modelled. The catalog is its path and source list.
- Georef.Georeference: `os.listdir` for both folders is an input. `os.path.exists`, `os.mkdir`, the current directory and `tqdm` are outside the model. The `length` counter is kept in `GeotagImages` but never read.
- Downloader.TileName: `str(lat)` and `str(lon)` of floats are taken as given strings. Python's float-to-text conversion is not modelled.
