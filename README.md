# torrent-to-plex placement engine in Dafny

This project models the placement engine of torrent-to-plex. The engine takes one downloaded torrent: a single file or a directory. It finds the torrent's video and subtitle files, and merges the metadata parsed from names with the user's overrides. It then lays the files out in a Plex library as hard links or copies, following the dry-run and overwrite switches.

The model has seven modules, one per file:

- `Common` (`common.dfy`): paths as sequences of components, `Option` and `Result`, and `Error`. `Error` has one constructor per failure the model can produce.
- `FileSystem` (`filesystem.dfy`): the filesystem as a map from paths to `Dir` or `File(id, content)` nodes. It also holds the `pathlib` name functions (`name`, `suffix`, `suffixes` and `/`), and the abstract effect of `mkdir`, `unlink`, `hardlink_to` and `shutil.copyfile`. `Disk` is the live filesystem: a class whose methods change it.
- `Values` (`values.dfy`): the metadata values a name parser returns, and how they become text:
  - Python truthiness;
  - `str()`;
  - the `02d` format, with a reader that gives a formatted number back.
- `Util` (`util.dfy`): `scan_dir`, `find_files` with its count bounds, and `ConfigHandler` with its section-by-section merge of a TOML file over the defaults.
- `Torrent` (`torrent.dfy`):
  - `Torrent.find_files`;
  - `get_metadata` with its precedence;
  - `create_plex_dir` and `create_plex_file`;
  - placement plans: a plan is a sequence of steps (`MkDir`, `Place`, `Fail`), and `Run` is the interpreter that says what executing one does.
- `Movie` (`movie.dfy`) and `Tv` (`tv.dfy`): the two kinds of torrent.
  - Their constructors are methods over the disk.
  - Their `to_plex` are methods with loops. Each ensures that its final filesystem and error equal `Run` of a plan built by pure functions.
  - Lemmas about those plans carry the layout, ordering and subtitle properties.

Python exceptions become `Error` values. Running stops at the first one and keeps whatever the earlier steps did, as an exception does.

Some behaviour of the code is easy to misread, and the model states it as the code has it:

- **Metadata precedence.** A truthy override beats the file name's metadata, which beats the torrent name's metadata. The dictionary merge at `torrent.py:74-78` builds it that way, and the comment at `torrent.py:70-73` lists the same order.
- **Missing metadata.** A missing key fails when `to_plex` first reads it. There is no check before placement, so a TV show folder can already exist when a missing season fails (`Tv.BadSeasonAfterShowFolder`).
- **TV show folder.** The show folder is `"Title (Year)"` whenever metadata has a year, and the title itself otherwise.
- **Episode override.** The `--episode` help text (`util.py:62-65`) calls it the starting episode number when there are several files. The code applies the same value to every file and never increments it (`Torrent.OverrideSameForEveryFile`).
- **Subtitles without a language suffix.** A name like `Movie.srt` has only one suffix. It raises at `suffixes[-2]` instead of being treated as a default-language subtitle (`Movie.MissingLanguageFails`).
- **Existing destination file.** Without `overwrite`, it raises and ends the run. The run does not skip it and continue.
- **TV count bound.** TV torrents have no count bound. `scan_dir` never uses its depth argument.
- **Path names.** `pathlib` follows CPython 3.11 and 3.12: `suffix` ignores a dot at the start of the name, `suffixes` strips all leading dots, and a name ending in a dot has no suffix. Joining an empty or `"."` name leaves the path as it is.

## Model

| member | source | states |
|---|---|---|
| FileSystem.Join | src/torrent_to_plex/tv.py:30 | `path / name` with an empty or `"."` name is the path itself; with any other name the result is a child of the path with that name |
| FileSystem.SuffixShape | src/torrent_to_plex/util.py:177 | `Path.suffix` is empty or one dot followed by non-dot characters, and it is the tail of the name |
| FileSystem.MakeDirKeepsTree | src/torrent_to_plex/torrent.py:93 | `mkdir` keeps the tree well formed: root a directory, every entry inside a directory |
| FileSystem.UnlinkKeepsTree | src/torrent_to_plex/torrent.py:106 | unlinking a file keeps the tree well formed |
| FileSystem.HardLinkKeepsTree | src/torrent_to_plex/torrent.py:115 | a hard link keeps the tree well formed |
| FileSystem.CopyFileKeepsTree | src/torrent_to_plex/torrent.py:122 | a copy keeps the tree well formed |
| FileSystem.Disk.Mkdir | src/torrent_to_plex/torrent.py:93 | the disk changes exactly as `MakeDir` says: the directory is added when its parent is a directory, otherwise an OS failure |
| FileSystem.Disk.Remove | src/torrent_to_plex/torrent.py:106 | the file's entry is removed and nothing else changes |
| FileSystem.Disk.LinkFrom | src/torrent_to_plex/torrent.py:115 | the new entry is the source's own node (same identity) |
| FileSystem.Disk.Copy | src/torrent_to_plex/torrent.py:122 | the new entry is a fresh file identity with the source's bytes |
| Values.Pad2ReadBack | src/torrent_to_plex/tv.py:32 | reading a `02d`-formatted integer back gives the integer and what followed it, for every integer, negative ones included |
| Values.Pad2Width | src/torrent_to_plex/tv.py:32 | `02d` gives at least two characters, exactly two for 0..99, the number's own text from 10 on (never truncated), and a leading zero for 0..9 |
| Util.MatchingEntriesFilter | src/torrent_to_plex/util.py:175-178 | the scan keeps exactly the listed entries that are files with a listed suffix, in listing order |
| Util.DirectChildrenOnly | src/torrent_to_plex/util.py:172-178 | over a real listing, a path is found exactly when it is a matching direct child of the directory, whatever the depth |
| Util.ScanDir | src/torrent_to_plex/util.py:172-178 | given the directory's real listing, the loop yields its matching entries in listing order, and a path is yielded exactly when it is a matching direct child of the directory |
| Util.CountCheck | src/torrent_to_plex/util.py:195-200 | no error exactly when neither a truthy maximum is exceeded nor a truthy minimum missed; the maximum is checked first |
| Util.FindFiles | src/torrent_to_plex/util.py:181-202 | a matching file gives `[path]`; a directory gives its scan; anything else gives no candidates, which fails only under a truthy negative maximum (`TooManyFiles(0, m)`) or a truthy positive minimum; the count errors exactly as `CountCheck`; every path returned matches; for a directory, a path is returned exactly when it is a matching direct child |
| Util.MergeComplete | src/torrent_to_plex/util.py:133-139 | with every section present as a table: file keys override, default keys survive, the set of sections is unchanged and extra file sections are ignored |
| Util.MergeStopsAtMissing | src/torrent_to_plex/util.py:138-139 | the first section missing from the file raises KeyError naming it; earlier sections are merged, it and later ones keep their values |
| Util.ConfigHandler.constructor | src/torrent_to_plex/util.py:121-131 | the configuration starts as the built-in defaults |
| Util.ConfigHandler.Load | src/torrent_to_plex/util.py:133-139 | the new configuration and error are those of the section merge over the old configuration, and the configuration keeps exactly the three built-in sections |
| Torrent.TruthyOverrides | src/torrent_to_plex/torrent.py:69 | exactly the overrides with truthy values are kept, unchanged |
| Torrent.GetMetadata | src/torrent_to_plex/torrent.py:65-82 | the key set is the union of the three sources; a truthy override wins, then the file name's parse, then the torrent name's |
| Torrent.FalsyOverrideIgnored | src/torrent_to_plex/torrent.py:69 | a falsy override gives the same metadata as no override |
| Torrent.OverrideSameForEveryFile | src/torrent_to_plex/torrent.py:54-61 | a truthy override reaches every file's metadata unchanged, so an episode override is not incremented |
| Torrent.FindFiles | src/torrent_to_plex/torrent.py:28-63 | success exactly when the count bounds hold, with the count error otherwise; one entry per found path in order; with metadata each gets the torrent name and its own name's metadata, without it none |
| Torrent.PlexDirCases | src/torrent_to_plex/torrent.py:85-95 | an existing non-directory raises; an existing directory is a no-op; an absent one is created only outside a dry run |
| Torrent.PlexDirIdempotent | src/torrent_to_plex/torrent.py:85-95 | ensuring a directory again after success changes nothing and succeeds |
| Torrent.PlexFileConflicts | src/torrent_to_plex/torrent.py:99-110 | a non-file destination, or a file without `overwrite`, raises and leaves the filesystem as it was, dry run or not |
| Torrent.PlexFilePlaced | src/torrent_to_plex/torrent.py:102-124 | a successful real placement leaves a file at the destination: the source's own node for a link, a new identity with the source's bytes for a copy; every other path keeps its node |
| Torrent.AsWrittenBlamesTheSource | src/torrent_to_plex/torrent.py:99-101 | as written, a regular source linked onto an existing directory is reported as "exists and is not a file" |
| Torrent.NotAFileNamesTheConflict | src/torrent_to_plex/torrent.py:99-101 | corrected: a not-a-file error always names the destination, which exists and is not a regular file |
| Torrent.RunAppend | src/torrent_to_plex/tv.py:23-44 | running two plans in a row is running the first and, unless it raised, the second from where it left off |
| Torrent.DryRunChangesNothing | src/torrent_to_plex/torrent.py:85-124 | under dry run no plan changes the filesystem, whatever `links` and `overwrite` are |
| Torrent.RunKeepsTree | src/torrent_to_plex/torrent.py:85-124 | every run keeps the filesystem a well-formed tree |
| Torrent.ApplyKeepsTree | src/torrent_to_plex/torrent.py:85-124 | each single placement step keeps the filesystem a well-formed tree |
| Torrent.RunTouchesOnlyTargets | src/torrent_to_plex/torrent.py:85-124 | a path that no step names keeps its node |
| Torrent.CreatePlexDir | src/torrent_to_plex/torrent.py:85-95 | the disk and error are exactly those of `PlexDir` |
| Torrent.CreatePlexFile | src/torrent_to_plex/torrent.py:98-124 | the disk and error are exactly those of `PlexFile` |
| Movie.NewMovie | src/torrent_to_plex/movie.py:11-18 | construction succeeds exactly when one video is found, failing with the minimum (0 found) or maximum error otherwise; the video carries its metadata and the subtitles none |
| Movie.LanguageSuffixOfSuffixes | src/torrent_to_plex/movie.py:43 | a subtitle's language suffix is `suffixes[-2]`, absent exactly when there are fewer than two suffixes |
| Movie.ToPlex | src/torrent_to_plex/movie.py:20-74 | the disk and error are those of running the movie's plan: folder, video, subtitles |
| Movie.PlaceSubtitles | src/torrent_to_plex/movie.py:36-74 | the subtitle loop and its default-language flag do what `SubtitleSteps` plans |
| Movie.PlaceSubtitle | src/torrent_to_plex/movie.py:44-74 | one pass of the subtitle loop does what `SubtitlePlacement` plans, and the default-language flag afterwards is set exactly when it was set or the subtitle's code is invalid |
| Movie.RunSubtitlePass | src/torrent_to_plex/movie.py:40-74 | one subtitle's pass either ends the run or leaves the rest of the plan with the flag updated |
| Movie.IncompleteMetadataPlacesNothing | src/torrent_to_plex/movie.py:24 | a missing title, else a missing year, raises KeyError before anything is created |
| Movie.SubtitleStepsShape | src/torrent_to_plex/movie.py:47-61 | subtitle steps make no directory and place only subtitles, into the movie folder, under names that start with the movie's name |
| Movie.MovieLayout | src/torrent_to_plex/movie.py:24-38 | the plan is the folder `library/"Title (Year)"`, then the video as `"Title (Year)"` plus its suffix inside it, then only subtitle steps |
| Movie.AtMostOneDefaultSubtitle | src/torrent_to_plex/movie.py:62-74 | at most one default-language subtitle is placed, none once one has been |
| Movie.FirstDefaultSubtitlePlaced | src/torrent_to_plex/movie.py:51-74 | the first default-language subtitle in scan order is placed under the configured default language |
| Movie.ValidSubtitlePlaced | src/torrent_to_plex/movie.py:44-65 | every subtitle with a valid language suffix is placed under that suffix, however many there are |
| Movie.MissingLanguageFails | src/torrent_to_plex/movie.py:43 | a subtitle with fewer than two suffixes ends the plan with an error naming it |
| Movie.SkippedSubtitlesRaiseNothing | src/torrent_to_plex/movie.py:62-74 | when every subtitle has a language suffix the subtitle plan is only placements: a later default-language subtitle is skipped without an error and the loop goes on |
| Movie.SubtitleFailsOnlyWithoutLanguage | src/torrent_to_plex/movie.py:43 | the only error the subtitle plan raises is the missing language suffix of one of its subtitles |
| Tv.NewTv | src/torrent_to_plex/tv.py:14-20 | construction always succeeds: every path the scanner returns for depth 2, in order, with its metadata; the subtitles the scanner returns for depth 1, without |
| Tv.RunAfterDir | src/torrent_to_plex/tv.py:30-33 | ensuring a folder either ends the run or leaves the rest of the plan |
| Tv.PlaceEpisode | src/torrent_to_plex/tv.py:24-44 | one loop pass does what `VideoSteps` plans: show folder, season folder, episode file, each key read only when reached, and an error for a video without metadata |
| Tv.RunVideoPass | src/torrent_to_plex/tv.py:23-44 | one video's pass either ends the run or leaves the plan for the remaining videos |
| Tv.ToPlex | src/torrent_to_plex/tv.py:22-44 | the disk and error are those of running every video's plan in scan order |
| Tv.EpisodeFileNameReadBack | src/torrent_to_plex/tv.py:34-37 | an episode file name reads back to its season, episode and suffix, for every pair of integers |
| Tv.SuffixStartsWithoutDigit | src/torrent_to_plex/tv.py:36 | a video's suffix never starts with a digit, so it cannot run into the episode number |
| Tv.EpisodeNamesDistinct | src/torrent_to_plex/tv.py:34-37 | two episode names are equal exactly when season, episode and suffix are |
| Tv.SeasonFolderNameReadBack | src/torrent_to_plex/tv.py:32 | a season folder's name reads back to its season |
| Tv.ShowNameCases | src/torrent_to_plex/tv.py:26-30 | `"Title (Year)"` when there is a year, else the title itself, which must be a string; a missing title raises |
| Tv.VideoLayout | src/torrent_to_plex/tv.py:24-44 | with all keys usable the plan is exactly show folder, `Season NN` inside it, `SNNENN.ext` inside that |
| Tv.BadSeasonAfterShowFolder | src/torrent_to_plex/tv.py:30-32 | a missing or non-integer season still leaves the show folder made |
| Tv.TvStaysInLibrary | src/torrent_to_plex/tv.py:22-44 | every folder and file of the plan lies inside the library, and only videos are placed, never subtitles |
| Tv.VideoStaysInLibrary | src/torrent_to_plex/tv.py:24-44 | one video's steps lie inside the library and place only that video |
| Tv.JoinUnder | src/torrent_to_plex/tv.py:30 | the show folder lies inside the library |
| Tv.SeasonStaysInLibrary | src/torrent_to_plex/tv.py:32-44 | season folder and episode file lie inside the library below the show folder |
| Tv.TvLeavesOutsideAlone | src/torrent_to_plex/tv.py:22-44 | no path outside the library changes, however the run ends |
| Tv.NoVideosNoChange | src/torrent_to_plex/tv.py:23 | a torrent without videos changes nothing and succeeds |
| Tv.TvStepsAppend | src/torrent_to_plex/tv.py:23 | the plan for two lists of videos is the first's plan followed by the second's |
| Tv.TvStopsAtFailure | src/torrent_to_plex/tv.py:23-44 | a failing video ends the run with its error; earlier placements remain and later videos are not touched |
| Tv.TvStepsAt | src/torrent_to_plex/tv.py:23 | the plan for all videos is that of the videos before the `i`th, then the `i`th's own pass, then that of the videos after it |
| Tv.RunStopsInside | src/torrent_to_plex/tv.py:23-44 | a plan whose middle part raises ends there, and nothing after it runs |

## Left out

- Logging, `ArgHandler`, `cli.py` and `extract_file` (the 7z call) are output or glue with no invariants of their own.
- Opening and decoding the TOML file in `ConfigHandler.load`, and its `sys.exit` paths, are I/O. `Load` takes the already decoded tables.
- `PTN.parse`, `langcodes.Language.get(..).is_valid()` and `scan_for_file_paths` are function parameters. `scan_for_file_paths` is imported by `torrent.py` but not defined in `util.py`. `Language.get` is taken to be total.
- Real OS semantics (permissions, cross-device links, races) are not modelled. Any refused `mkdir`, link or copy is the single error `OsFailure`.
- Names that contain `/` are not modelled. A name always joins as one path component.
- Names `"."` and `".."`: `Join` drops a `"."` name as `pathlib` does. A `".."` name is kept as written, and the model never resolves it against its parent, as the OS would.
- Tv.TvLeavesOutsideAlone: paths are compared as written. A show title `".."` gives the show folder `library/..`, which the lemma counts as inside the library, while the OS would really create the season folder beside the library.
- Floating-point metadata values are not modelled.
- Values.Repr: quotes a string inside a list `str()` with plain single quotes. It does not model Python's choice of quote character or its escaping.
- Movie.ToPlex: models the video loop for the single video the constructor guarantees (it requires `Constructed`). With no video, Python's subtitle loop would hit an unbound `plex_folder_path`, which is not modelled.
- Movie.PlaceSubtitles, Movie.PlaceSubtitle and Tv.PlaceEpisode: they split the bodies of the two `to_plex` loops into methods of their own.
- Torrent.PlexFile: uses the corrected error from the finding below. A destination that exists and is not a file gives `NotAFile(dst)`, where the code names `src_path`. `Torrent.PlexFileAsWritten` is the code as written, and only the finding's lemma uses it.
- Torrent.CreatePlexFile: its contract is `PlexFile`, so it reports the corrected `NotAFile(dst)` and not the message the code prints.
- Tv.VideoSteps: a found file without metadata stands for a dict with no `"metadata"` key, so its pass fails with `MissingKey("metadata")`, as `video["metadata"]` raises KeyError at `tv.py:25`. The constructor never builds such a video.
- Movie.SubtitleSteps: updates the default-language flag in the plan right after a placement step. Python sets it after the placement succeeds, and a failed placement ends the run, so the two agree.
- Movie.NewMovie and Tv.NewTv: do not model the subtitle search raising, because it has no bounds and cannot raise.
- Sequential episode numbering from a starting override is not modelled, because the code does not implement it.

## Findings

| source | as written | input that shows it | evidently intended | confidence | as-written member | corrected member |
|---|---|---|---|---|---|---|
| src/torrent_to_plex/torrent.py:100-101 | when the destination exists and is not a file, the error message names `src_path` | link the regular file `movie.mkv` onto an existing directory `Plex`: the error says `movie.mkv` exists and is not a file | name `dst_path`, the path that was checked | high, not executed | Torrent.AsWrittenBlamesTheSource | Torrent.NotAFileNamesTheConflict |
