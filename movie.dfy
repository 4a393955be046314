/** `movie.py`: a movie torrent holds exactly one video. Its placement
    ensures `library/Title (Year)`, places the video as `Title (Year).ext`,
    then the subtitles, at most one of them in the default language. */
module Movie {
  import opened Common
  import opened FileSystem
  import opened Values
  import opened Torrent
  import Util

  /** A constructed movie torrent: the subtitles and the videos found in it. */
  datatype Movie = Movie(torrent: Torrent, subtitles: seq<FoundFile>, videos: seq<FoundFile>)

  /** What construction guarantees: one video, with its metadata. */
  predicate Constructed(m: Movie)
  {
    |m.videos| == 1 && m.videos[0].metadata.Some?
  }

  /** `Movie(torrent_name, torrent_dir, overrides)`: subtitles without
      metadata, then exactly one video with it (`max_files=1, min_files=1`). */
  method NewMovie(disk: Disk, t: Torrent, ext: Extensions, scan: Scanner, parse: Parser) returns (r: Result<Movie>)
    ensures var vids := ScannedPaths(disk.State(), t.TorrentPath(), ext.video, 1, scan);
            var subs := ScannedPaths(disk.State(), t.TorrentPath(), ext.subtitle, 1, scan);
      && (r.Ok? <==> |vids| == 1)
      && (|vids| == 0 ==> r == Err(TooFewFiles(0, 1)))
      && (|vids| > 1 ==> r == Err(TooManyFiles(|vids|, 1)))
      && (r.Ok? ==>
            && Constructed(r.value) && r.value.torrent == t
            && r.value.videos[0] == FoundFile(vids[0], Some(GetMetadata(parse, t.name, Name(vids[0]), t.overrides)))
            && |r.value.subtitles| == |subs|
            && forall i :: 0 <= i < |subs| ==> r.value.subtitles[i] == FoundFile(subs[i], None))
  {
    var found := FindFiles(disk, t, t.TorrentPath(), ext.subtitle, 1, None, None, false, scan, parse);
    var subtitles := if found.Ok? then found.value else [];
    var videos := FindFiles(disk, t, t.TorrentPath(), ext.video, 1, Some(1), Some(1), true, scan, parse);
    if videos.Err? {
      return Err(videos.error);
    }
    r := Ok(Movie(t, subtitles, videos.value));
  }

  // ---------------------------------------------------------------------
  // The placement plan
  // ---------------------------------------------------------------------

  /** `suffixes[-2]` of a subtitle's name, absent when it has fewer than
      two suffixes (read straight off the dot-separated parts; the lemma
      `LanguageSuffixOfSuffixes` shows it is the second-to-last suffix). */
  function LanguageSuffix(p: Path): Option<string>
  {
    var name := Name(p);
    if name != [] && name[|name| - 1] == '.' then None
    else
      var parts := SplitDots(LeftStripDots(name));
      if |parts| < 3 then None else Some("." + parts[|parts| - 2])
  }

  lemma LanguageSuffixOfSuffixes(p: Path)
    ensures var x := Suffixes(Name(p));
      LanguageSuffix(p) == if |x| < 2 then None else Some(x[|x| - 2])
  {
    var name := Name(p);
    if !(name != [] && name[|name| - 1] == '.') {
      var parts := SplitDots(LeftStripDots(name));
      DottedParts(parts[1..]);
    }
  }


  /** What the subtitle loop needs to name a subtitle's destination: the
      movie's folder and base name, the configured default language, the
      language check, and how the language suffix is read off a path. */
  datatype SubtitleRules = SubtitleRules(folder: Path, plexName: string, defaultLanguage: string,
                                         isValid: string -> bool, language: Path -> Option<string>)

  /** `plex_folder_path / f"{plex_name}{lang}{subtitle_suffix}"`. */
  function SubtitleTarget(rules: SubtitleRules, p: Path, lang: string): Path
  {
    rules.folder + [rules.plexName + lang + Suffix(Name(p))]
  }

  /** A subtitle whose language suffix the language check rejects. */
  predicate IsDefault(rules: SubtitleRules, p: Path)
  {
    rules.language(p).Some? && !rules.isValid(rules.language(p).value)
  }

  /** One pass of the subtitle loop's body for a subtitle with a language
      suffix: a valid one names the destination; an invalid one is replaced
      by the configured default, placed only if no default was placed yet. */
  function SubtitlePlacement(rules: SubtitleRules, p: Path, copied: bool): seq<Step>
    requires rules.language(p).Some?
  {
    var lang := rules.language(p).value;
    if rules.isValid(lang) then [Place(p, SubtitleTarget(rules, p, lang))]
    else if !copied then [Place(p, SubtitleTarget(rules, p, rules.defaultLanguage))]
    else []
  }

  /** `default_language_copied` after a subtitle's pass (set only after a
      placement, which a failure would have ended the run before). */
  function CopiedAfter(rules: SubtitleRules, p: Path, copied: bool): bool
  {
    copied || IsDefault(rules, p)
  }

  /** The subtitle loop; a name without a language suffix raises. */
  function SubtitleSteps(subs: seq<FoundFile>, rules: SubtitleRules, copied: bool): seq<Step>
    decreases |subs|
  {
    if subs == [] then []
    else
      var p := subs[0].path;
      if rules.language(p).None? then [Fail(NoLanguageSuffix(p))]
      else SubtitlePlacement(rules, p, copied) + SubtitleSteps(subs[1..], rules, CopiedAfter(rules, p, copied))
  }

  /** The rules `Movie.to_plex` applies to the subtitles of `name`. */
  function MovieSubtitleRules(folder: Path, name: string, defaultLanguage: string, isValid: string -> bool): SubtitleRules
  {
    SubtitleRules(folder, name, defaultLanguage, isValid, LanguageSuffix)
  }

  /** `Movie.to_plex` as a plan: the folder, the video, the subtitles. */
  function MovieSteps(m: Movie, library: Path, defaultLanguage: string, isValid: string -> bool): seq<Step>
    requires Constructed(m)
  {
    var video := m.videos[0];
    var md := video.metadata.value;
    if "title" !in md then [Fail(MissingKey("title"))]
    else if "year" !in md then [Fail(MissingKey("year"))]
    else
      var name := TitleAndYear(md["title"], md["year"]);
      var folder := library + [name];
      [MkDir(folder), Place(video.path, folder + [name + Suffix(Name(video.path))])]
        + SubtitleSteps(m.subtitles, MovieSubtitleRules(folder, name, defaultLanguage, isValid), false)
  }

  /** `Movie.to_plex(library_path, links, overwrite, dry_run)`. */
  method ToPlex(disk: Disk, m: Movie, library: Path, o: Options, defaultLanguage: string, isValid: string -> bool)
    returns (err: Option<Error>)
    requires disk.Valid() && Constructed(m)
    modifies disk
    ensures disk.Valid()
    ensures Outcome(disk.State(), err) == Run(old(disk.State()), MovieSteps(m, library, defaultLanguage, isValid), o)
  {
    ghost var start := disk.State();
    ghost var plan := MovieSteps(m, library, defaultLanguage, isValid);
    var video := m.videos[0];
    var path := video.path;
    var metadata := video.metadata.value;
    if "title" !in metadata {
      return Some(MissingKey("title"));
    }
    if "year" !in metadata {
      return Some(MissingKey("year"));
    }
    var plexName := TitleAndYear(metadata["title"], metadata["year"]);
    var plexFolderPath := library + [plexName];
    ghost var subtitlePlan := SubtitleSteps(m.subtitles, MovieSubtitleRules(plexFolderPath, plexName, defaultLanguage, isValid), false);
    var plexFilePath := plexFolderPath + [plexName + Suffix(Name(path))];
    assert plan == [MkDir(plexFolderPath)] + ([Place(path, plexFilePath)] + subtitlePlan);
    err := CreatePlexDir(disk, plexFolderPath, o.dryRun);
    if err.Some? {
      return;
    }
    ghost var afterDir := disk.State();
    err := CreatePlexFile(disk, path, plexFilePath, o.links, o.overwrite, o.dryRun);
    assert Run(afterDir, [Place(path, plexFilePath)] + subtitlePlan, o) == Run(start, plan, o);
    if err.Some? {
      return;
    }
    err := PlaceSubtitles(disk, m.subtitles, MovieSubtitleRules(plexFolderPath, plexName, defaultLanguage, isValid), o);
  }

  /** The subtitle loop of `Movie.to_plex`, under the given rules. */
  method PlaceSubtitles(disk: Disk, subtitles: seq<FoundFile>, rules: SubtitleRules, o: Options)
    returns (err: Option<Error>)
    requires disk.Valid()
    modifies disk
    ensures disk.Valid()
    ensures Outcome(disk.State(), err) == Run(old(disk.State()), SubtitleSteps(subtitles, rules, false), o)
  {
    ghost var start := disk.State();
    var defaultLanguageCopied := false;
    var i := 0;
    while i < |subtitles|
      invariant 0 <= i <= |subtitles| && disk.Valid()
      invariant Run(disk.State(), SubtitleSteps(subtitles[i..], rules, defaultLanguageCopied), o)
             == Run(start, SubtitleSteps(subtitles, rules, false), o)
    {
      ghost var rest := subtitles[i..];
      assert rest[0] == subtitles[i] && rest[1..] == subtitles[i + 1..];
      var subtitlePath := subtitles[i].path;
      var languageSuffix := rules.language(subtitlePath);
      if languageSuffix.None? {
        return Some(NoLanguageSuffix(subtitlePath));
      }
      ghost var here := disk.State();
      ghost var copied := defaultLanguageCopied;
      err, defaultLanguageCopied := PlaceSubtitle(disk, subtitlePath, languageSuffix.value, rules, defaultLanguageCopied, o);
      RunSubtitlePass(here, rest, rules, copied, o, Outcome(disk.State(), err),
                      Run(start, SubtitleSteps(subtitles, rules, false), o));
      if err.Some? {
        return;
      }
      i := i + 1;
    }
    err := None;
  }

  /** One pass of the subtitle loop for a subtitle whose language suffix is
      `languageSuffix`: a valid code names the destination; otherwise the
      default language does, and only the first such subtitle is placed. */
  method PlaceSubtitle(disk: Disk, subtitlePath: Path, languageSuffix: string, rules: SubtitleRules,
                       defaultLanguageCopied: bool, o: Options)
    returns (err: Option<Error>, copiedNow: bool)
    requires disk.Valid() && rules.language(subtitlePath) == Some(languageSuffix)
    modifies disk
    ensures disk.Valid()
    ensures Outcome(disk.State(), err)
         == Run(old(disk.State()), SubtitlePlacement(rules, subtitlePath, defaultLanguageCopied), o)
    ensures copiedNow == CopiedAfter(rules, subtitlePath, defaultLanguageCopied)
  {
    var validLanguageCode := false;
    var isDefault := false;
    var plexSubtitlePath;
    if rules.isValid(languageSuffix) {
      validLanguageCode := true;
      plexSubtitlePath := rules.folder + [rules.plexName + languageSuffix + Suffix(Name(subtitlePath))];
    } else {
      isDefault := true;
      plexSubtitlePath := rules.folder + [rules.plexName + rules.defaultLanguage + Suffix(Name(subtitlePath))];
    }
    copiedNow := defaultLanguageCopied;
    err := None;
    if (isDefault && !defaultLanguageCopied) || validLanguageCode {
      assert SubtitlePlacement(rules, subtitlePath, defaultLanguageCopied) == [Place(subtitlePath, plexSubtitlePath)];
      err := CreatePlexFile(disk, subtitlePath, plexSubtitlePath, o.links, o.overwrite, o.dryRun);
      if isDefault {
        copiedNow := true;
      }
    }
  }

  /** Running the subtitle plan: one subtitle's pass, then the rest of the
      plan unless that pass failed. */
  lemma RunSubtitlePass(s: Snapshot, subs: seq<FoundFile>, rules: SubtitleRules, copied: bool, o: Options,
                        after: Outcome, goal: Outcome)
    requires subs != [] && rules.language(subs[0].path).Some?
    requires Run(s, SubtitleSteps(subs, rules, copied), o) == goal
    requires after == Run(s, SubtitlePlacement(rules, subs[0].path, copied), o)
    ensures after.error.Some? ==> after == goal
    ensures after.error.None? ==>
      Run(after.state, SubtitleSteps(subs[1..], rules, CopiedAfter(rules, subs[0].path, copied)), o) == goal
  {
    var p := subs[0].path;
    RunAppend(s, SubtitlePlacement(rules, p, copied), SubtitleSteps(subs[1..], rules, CopiedAfter(rules, p, copied)), o);
  }

  // ---------------------------------------------------------------------
  // Properties of the plan
  // ---------------------------------------------------------------------

  /** A title or year missing from the metadata fails before anything is placed. */
  lemma IncompleteMetadataPlacesNothing(s: Snapshot, m: Movie, library: Path, o: Options,
                                        defaultLanguage: string, isValid: string -> bool)
    requires Constructed(m)
    requires "title" !in m.videos[0].metadata.value || "year" !in m.videos[0].metadata.value
    ensures var md := m.videos[0].metadata.value;
      Run(s, MovieSteps(m, library, defaultLanguage, isValid), o)
        == Outcome(s, Some(MissingKey(if "title" !in md then "title" else "year")))
  {
  }

  /** Whether a step of the subtitle loop stays in the rules' folder: no
      directory is made, and a placement takes one of the subtitles to a
      name in the folder that starts with the movie's base name. */
  predicate SubtitleStepShape(step: Step, subs: seq<FoundFile>, rules: SubtitleRules)
  {
    && !step.MkDir?
    && (step.Place? ==>
          step.src in Paths(subs)
          && step.dst != [] && Parent(step.dst) == rules.folder
          && |Name(step.dst)| >= |rules.plexName| && Name(step.dst)[..|rules.plexName|] == rules.plexName)
  }

  lemma {:induction false} SubtitleStepsShape(subs: seq<FoundFile>, rules: SubtitleRules, copied: bool)
    ensures forall step | step in SubtitleSteps(subs, rules, copied) :: SubtitleStepShape(step, subs, rules)
    decreases |subs|
  {
    if subs != [] && rules.language(subs[0].path).Some? {
      var p := subs[0].path;
      var head := SubtitlePlacement(rules, p, copied);
      var later := SubtitleSteps(subs[1..], rules, CopiedAfter(rules, p, copied));
      SubtitleStepsShape(subs[1..], rules, CopiedAfter(rules, p, copied));
      assert Paths(subs) == [p] + Paths(subs[1..]);
      forall step | step in head + later
        ensures SubtitleStepShape(step, subs, rules)
      {
        if step in head {
          assert step == head[0] && step.src == p;
        } else {
          assert SubtitleStepShape(step, subs[1..], rules);
        }
      }
    }
  }

  /** The folder `library/"Title (Year)"` comes first, then the video as
      `"Title (Year)" + suffix` inside it, then only subtitle placements,
      all into that folder under names that start with `"Title (Year)"`. */
  lemma MovieLayout(m: Movie, library: Path, defaultLanguage: string, isValid: string -> bool)
    requires Constructed(m)
    requires "title" in m.videos[0].metadata.value && "year" in m.videos[0].metadata.value
    ensures var md := m.videos[0].metadata.value;
            var name := TitleAndYear(md["title"], md["year"]);
            var plan := MovieSteps(m, library, defaultLanguage, isValid);
      && |plan| >= 2
      && plan[0] == MkDir(library + [name])
      && plan[1] == Place(m.videos[0].path, library + [name, name + Suffix(Name(m.videos[0].path))])
      && forall k | 2 <= k < |plan| ::
           SubtitleStepShape(plan[k], m.subtitles, MovieSubtitleRules(library + [name], name, defaultLanguage, isValid))
  {
    var md := m.videos[0].metadata.value;
    var name := TitleAndYear(md["title"], md["year"]);
    var rules := MovieSubtitleRules(library + [name], name, defaultLanguage, isValid);
    var subtitlePlan := SubtitleSteps(m.subtitles, rules, false);
    SubtitleStepsShape(m.subtitles, rules, false);
    var plan := MovieSteps(m, library, defaultLanguage, isValid);
    var head := [MkDir(library + [name]), Place(m.videos[0].path, library + [name] + [name + Suffix(Name(m.videos[0].path))])];
    assert plan == head + subtitlePlan;
    assert library + [name] + [name + Suffix(Name(m.videos[0].path))] == library + [name, name + Suffix(Name(m.videos[0].path))];
    forall k | 2 <= k < |plan|
      ensures SubtitleStepShape(plan[k], m.subtitles, rules)
    {
      assert plan[k] == subtitlePlan[k - 2] && subtitlePlan[k - 2] in subtitlePlan;
    }
  }

  /** The number of placements of default-language subtitles in a plan. */
  function DefaultPlacements(steps: seq<Step>, rules: SubtitleRules): nat
    decreases |steps|
  {
    if steps == [] then 0
    else (if steps[0].Place? && IsDefault(rules, steps[0].src) then 1 else 0) + DefaultPlacements(steps[1..], rules)
  }

  /** At most one default-language subtitle is placed, and none once one has been. */
  lemma {:induction false} AtMostOneDefaultSubtitle(subs: seq<FoundFile>, rules: SubtitleRules, copied: bool)
    ensures DefaultPlacements(SubtitleSteps(subs, rules, copied), rules) <= if copied then 0 else 1
    decreases |subs|
  {
    if subs != [] {
      var p := subs[0].path;
      var steps := SubtitleSteps(subs, rules, copied);
      if rules.language(p).None? {
        assert steps[1..] == [];
      } else {
        var head := SubtitlePlacement(rules, p, copied);
        var later := SubtitleSteps(subs[1..], rules, CopiedAfter(rules, p, copied));
        AtMostOneDefaultSubtitle(subs[1..], rules, CopiedAfter(rules, p, copied));
        if head != [] {
          assert head[0] == Place(p, head[0].dst);
          assert IsDefault(rules, p) ==> !copied && CopiedAfter(rules, p, copied);
          assert steps == [head[0]] + later;
          assert steps[1..] == later;
        } else {
          assert steps == later;
        }
      }
    }
  }

  /** The first default-language subtitle in scan order is placed under the
      default language, provided every subtitle before it has a valid one. */
  lemma {:induction false} FirstDefaultSubtitlePlaced(subs: seq<FoundFile>, rules: SubtitleRules, i: nat)
    requires i < |subs| && IsDefault(rules, subs[i].path)
    requires forall j | 0 <= j < i :: rules.language(subs[j].path).Some? && rules.isValid(rules.language(subs[j].path).value)
    ensures Place(subs[i].path, SubtitleTarget(rules, subs[i].path, rules.defaultLanguage)) in SubtitleSteps(subs, rules, false)
    decreases i
  {
    if i > 0 {
      var p := subs[0].path;
      assert !CopiedAfter(rules, p, false);
      assert subs[1..][i - 1] == subs[i];
      FirstDefaultSubtitlePlaced(subs[1..], rules, i - 1);
    } else {
      assert SubtitlePlacement(rules, subs[0].path, false)
          == [Place(subs[0].path, SubtitleTarget(rules, subs[0].path, rules.defaultLanguage))];
    }
  }

  /** Every subtitle with a valid language suffix is placed under it, however
      many there are, provided every subtitle before it has a suffix. */
  lemma {:induction false} ValidSubtitlePlaced(subs: seq<FoundFile>, rules: SubtitleRules, copied: bool, i: nat)
    requires i < |subs|
    requires forall j | 0 <= j <= i :: rules.language(subs[j].path).Some?
    requires rules.isValid(rules.language(subs[i].path).value)
    ensures Place(subs[i].path, SubtitleTarget(rules, subs[i].path, rules.language(subs[i].path).value))
         in SubtitleSteps(subs, rules, copied)
    decreases i
  {
    if i > 0 {
      var p := subs[0].path;
      assert rules.language(p).Some?;
      assert subs[1..][i - 1] == subs[i];
      ValidSubtitlePlaced(subs[1..], rules, CopiedAfter(rules, p, copied), i - 1);
    } else {
      var p := subs[0].path;
      assert SubtitlePlacement(rules, p, copied) == [Place(p, SubtitleTarget(rules, p, rules.language(p).value))];
    }
  }

  /** A subtitle without a language suffix (`x.srt`) ends the plan with an
      error naming it, provided every subtitle before it has a suffix. */
  lemma {:induction false} MissingLanguageFails(subs: seq<FoundFile>, rules: SubtitleRules, copied: bool, i: nat)
    requires i < |subs|
    requires forall j | 0 <= j < i :: rules.language(subs[j].path).Some?
    requires rules.language(subs[i].path).None?
    ensures var steps := SubtitleSteps(subs, rules, copied);
      |steps| > 0 && steps[|steps| - 1] == Fail(NoLanguageSuffix(subs[i].path))
    decreases i
  {
    if i > 0 {
      var p := subs[0].path;
      assert rules.language(p).Some?;
      var next := CopiedAfter(rules, p, copied);
      assert subs[1..][i - 1] == subs[i];
      assert forall j | 0 <= j < i - 1 :: subs[1..][j] == subs[j + 1];
      MissingLanguageFails(subs[1..], rules, next, i - 1);
      SubtitleStepsLast(subs, rules, copied);
    }
  }

  /** A subtitle with a language suffix puts its own pass before the rest of
      the plan, so a non-empty rest supplies the plan's last step. */
  lemma SubtitleStepsLast(subs: seq<FoundFile>, rules: SubtitleRules, copied: bool)
    requires subs != [] && rules.language(subs[0].path).Some?
    requires |SubtitleSteps(subs[1..], rules, CopiedAfter(rules, subs[0].path, copied))| > 0
    ensures var steps := SubtitleSteps(subs, rules, copied);
            var later := SubtitleSteps(subs[1..], rules, CopiedAfter(rules, subs[0].path, copied));
      |steps| > 0 && steps[|steps| - 1] == later[|later| - 1]
  {
    var p := subs[0].path;
    LastOfAppend(SubtitlePlacement(rules, p, copied), SubtitleSteps(subs[1..], rules, CopiedAfter(rules, p, copied)));
  }

  /** With a language suffix on every subtitle the plan raises nothing of its
      own: a default-language subtitle after the first is skipped, not an
      error, and the loop goes on. */
  lemma {:induction false} SkippedSubtitlesRaiseNothing(subs: seq<FoundFile>, rules: SubtitleRules, copied: bool)
    requires forall i | 0 <= i < |subs| :: rules.language(subs[i].path).Some?
    ensures forall step | step in SubtitleSteps(subs, rules, copied) :: step.Place?
    decreases |subs|
  {
    if subs != [] {
      assert forall i | 0 <= i < |subs| - 1 :: subs[1..][i] == subs[i + 1];
      SkippedSubtitlesRaiseNothing(subs[1..], rules, CopiedAfter(rules, subs[0].path, copied));
    }
  }

  /** The only error the subtitle plan raises names one of the subtitles,
      and that subtitle has no language suffix. */
  lemma {:induction false} SubtitleFailsOnlyWithoutLanguage(subs: seq<FoundFile>, rules: SubtitleRules, copied: bool)
    ensures forall step | step in SubtitleSteps(subs, rules, copied) && step.Fail? ::
      step.error.NoLanguageSuffix? && step.error.path in Paths(subs) && rules.language(step.error.path).None?
    decreases |subs|
  {
    if subs != [] && rules.language(subs[0].path).Some? {
      var p := subs[0].path;
      SubtitleFailsOnlyWithoutLanguage(subs[1..], rules, CopiedAfter(rules, p, copied));
      assert Paths(subs) == [p] + Paths(subs[1..]);
    }
  }

  /** The last step of `a + b` is `b`'s last. */
  lemma LastOfAppend(a: seq<Step>, b: seq<Step>)
    requires |b| > 0
    ensures |a + b| > 0 && (a + b)[|a + b| - 1] == b[|b| - 1]
  {
  }
}
