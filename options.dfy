/**
 * The options dictionary the script builds from getopt's `(opt, arg)` pairs
 * (`get_user_input`), as a record: options that take an argument are
 * present (`Some`) or absent (`None`), boolean options are present when
 * they are in `flags`.
 */
module Options {
  import opened Wrappers
  import opened Text

  /** The boolean options, by the name they get in the dictionary. */
  datatype Flag = ExtractAllSub | KeepSub | NoDupe | NewFolder | KeepChapt | KeepTtitle
                | KeepTitle | KeepAtt | SubFolders | Simulate | Verbose | TrashFiles | NoColor

  /** The options that take an argument, by the name they get in the dictionary. */
  datatype Setting = InPath | OutPath | AudioLang | SubLang | ExtractSub | KeepattType | PassAlong

  datatype UserOptions = UserOptions(
    inPath: Option<string>,
    outPath: Option<string>,
    passAlong: Option<string>,
    audioLang: Option<seq<string>>,
    subLang: Option<seq<string>>,
    extractSub: Option<seq<string>>,
    keepattType: Option<seq<string>>,
    flags: set<Flag>)

  /** The empty dictionary the mapping starts from. */
  const NoOptions := UserOptions(None, None, None, None, None, None, None, {})

  /** Options which require a string. */
  const ValidOptions: map<string, Setting> := map[
    "-i" := InPath, "--in-path" := InPath,
    "-o" := OutPath, "--out-path" := OutPath,
    "-a" := AudioLang, "--audio-lang" := AudioLang,
    "-s" := SubLang, "--sub-lang" := SubLang,
    "-x" := ExtractSub, "--extract-sub" := ExtractSub,
    "-k" := KeepattType, "--keepatt-type" := KeepattType,
    "--pass-along" := PassAlong]

  /** Options which are present or absent; `--keep-track-titles` sets `keep_title`. */
  const ValidOptionsBool: map<string, Flag> := map[
    "-X" := ExtractAllSub, "--extract-all-sub" := ExtractAllSub,
    "-S" := KeepSub, "--keep-all-sub" := KeepSub,
    "--no-dupe" := NoDupe,
    "--new-folder" := NewFolder,
    "-c" := KeepChapt, "--keep-chapt" := KeepChapt,
    "-t" := KeepTtitle, "--keep-track-titles" := KeepTitle,
    "-T" := KeepTitle, "--keep-title" := KeepTitle,
    "-K" := KeepAtt, "--keep-att" := KeepAtt,
    "--sub-folders" := SubFolders,
    "--simulate" := Simulate,
    "-v" := Verbose, "--verbose" := Verbose,
    "--trash-files" := TrashFiles,
    "--nc" := NoColor]

  /** Options whose argument is a comma-separated list. */
  const ListArgvs: set<string> := {
    "-a", "--audio-lang", "-s", "--sub-lang", "-x", "--extract-sub", "-k", "--keepatt-type"}

  /** The value stored under a setting: the argument, or its comma-separated pieces. */
  datatype Value = Plain(text: string) | Pieces(items: seq<string>)

  predicate IsListSetting(s: Setting) {
    s == AudioLang || s == SubLang || s == ExtractSub || s == KeepattType
  }

  /** What the dictionary holds under a setting. */
  function Get(o: UserOptions, s: Setting): Option<Value> {
    match s
    case InPath => if o.inPath.Some? then Some(Plain(o.inPath.value)) else None
    case OutPath => if o.outPath.Some? then Some(Plain(o.outPath.value)) else None
    case PassAlong => if o.passAlong.Some? then Some(Plain(o.passAlong.value)) else None
    case AudioLang => if o.audioLang.Some? then Some(Pieces(o.audioLang.value)) else None
    case SubLang => if o.subLang.Some? then Some(Pieces(o.subLang.value)) else None
    case ExtractSub => if o.extractSub.Some? then Some(Pieces(o.extractSub.value)) else None
    case KeepattType => if o.keepattType.Some? then Some(Pieces(o.keepattType.value)) else None
  }

  /** Whether a value has the shape the record keeps under a setting. */
  predicate Fits(s: Setting, v: Value) {
    IsListSetting(s) <==> v.Pieces?
  }

  /** `user_given_options[name] = value`; setting and value always fit (`ListArgvsAreListSettings`). */
  function Store(o: UserOptions, s: Setting, v: Value): (r: UserOptions)
    requires Fits(s, v)
    ensures Get(r, s) == Some(v)
    ensures forall s' :: s' != s ==> Get(r, s') == Get(o, s')
    ensures r.flags == o.flags
  {
    match s
    case InPath => o.(inPath := Some(v.text))
    case OutPath => o.(outPath := Some(v.text))
    case PassAlong => o.(passAlong := Some(v.text))
    case AudioLang => o.(audioLang := Some(v.items))
    case SubLang => o.(subLang := Some(v.items))
    case ExtractSub => o.(extractSub := Some(v.items))
    case KeepattType => o.(keepattType := Some(v.items))
  }

  /** An option is split on commas exactly when it names a list setting. */
  lemma ListArgvsAreListSettings(opt: string)
    requires opt in ValidOptions
    ensures opt in ListArgvs <==> IsListSetting(ValidOptions[opt])
  {
  }

  /** No option is both a string option and a boolean one. */
  lemma TablesDisjoint(opt: string)
    ensures !(opt in ValidOptions && opt in ValidOptionsBool)
  {
  }

  predicate IsHelp(opt: string) {
    opt == "-h" || opt == "--help"
  }

  /** The value one `(opt, arg)` pair stores, for an option in `ValidOptions`. */
  function ValueOf(opt: string, arg: string): Value {
    if opt in ListArgvs then Pieces(Split(arg, ',')) else Plain(arg)
  }

  /** One pass of the option loop for a pair that is not a help request. */
  function ApplyPair(o: UserOptions, opt: string, arg: string): UserOptions {
    if opt in ValidOptions then
      ListArgvsAreListSettings(opt);
      Store(o, ValidOptions[opt], ValueOf(opt, arg))
    else if opt in ValidOptionsBool then o.(flags := o.flags + {ValidOptionsBool[opt]})
    else o
  }

  /** The outcome of the option loop: the help text shown, or the dictionary. */
  datatype Parsed = HelpShown | Given(options: UserOptions)

  /** The option loop over the pairs getopt produced, in order. */
  function FromPairs(ps: seq<(string, string)>): Parsed
    decreases |ps|
  {
    if |ps| == 0 then Given(NoOptions)
    else
      match FromPairs(ps[..|ps| - 1])
      case HelpShown => HelpShown
      case Given(o) =>
        var (opt, arg) := ps[|ps| - 1];
        if IsHelp(opt) then HelpShown else Given(ApplyPair(o, opt, arg))
  }

  /** The help text is shown, and nothing else happens, exactly when some pair asks for it. */
  lemma {:induction false} HelpIff(ps: seq<(string, string)>)
    ensures FromPairs(ps) == HelpShown <==> exists i :: 0 <= i < |ps| && IsHelp(ps[i].0)
    decreases |ps|
  {
    if |ps| > 0 {
      var init := ps[..|ps| - 1];
      HelpIff(init);
      assert forall i :: 0 <= i < |init| ==> init[i] == ps[i];
    }
  }

  /** A boolean option is present exactly when some pair names it. */
  lemma {:induction false} FlagIff(ps: seq<(string, string)>, f: Flag)
    requires FromPairs(ps).Given?
    ensures f in FromPairs(ps).options.flags <==>
      exists i :: 0 <= i < |ps| && ps[i].0 in ValidOptionsBool && ValidOptionsBool[ps[i].0] == f
    decreases |ps|
  {
    if |ps| > 0 {
      var init := ps[..|ps| - 1];
      FlagIff(init, f);
      assert forall i :: 0 <= i < |init| ==> init[i] == ps[i];
      TablesDisjoint(ps[|ps| - 1].0);
    }
  }

  /** The value of the last pair that names a setting, if any does. */
  function LastValue(ps: seq<(string, string)>, s: Setting): Option<Value>
    decreases |ps|
  {
    if |ps| == 0 then None
    else
      var (opt, arg) := ps[|ps| - 1];
      if opt in ValidOptions && ValidOptions[opt] == s then Some(ValueOf(opt, arg))
      else LastValue(ps[..|ps| - 1], s)
  }

  /** A setting holds the value of the last pair that names it; list settings hold its comma-separated pieces. */
  lemma {:induction false} LastValueWins(ps: seq<(string, string)>, s: Setting)
    requires FromPairs(ps).Given?
    ensures Get(FromPairs(ps).options, s) == LastValue(ps, s)
    ensures IsListSetting(s) && LastValue(ps, s).Some? ==>
      exists i :: 0 <= i < |ps| && ps[i].0 in ValidOptions && ValidOptions[ps[i].0] == s &&
        LastValue(ps, s) == Some(Pieces(Split(ps[i].1, ',')))
    decreases |ps|
  {
    if |ps| > 0 {
      var init := ps[..|ps| - 1];
      LastValueWins(init, s);
      assert forall i :: 0 <= i < |init| ==> init[i] == ps[i];
      var opt := ps[|ps| - 1].0;
      if opt in ValidOptions {
        ListArgvsAreListSettings(opt);
      }
    }
  }

  /** `--keep-track-titles` turns on the file-title option, not the track-title one. */
  lemma KeepTrackTitlesSetsKeepTitle()
    ensures FromPairs([("--keep-track-titles", "")]) == Given(NoOptions.(flags := {KeepTitle}))
    ensures FromPairs([("-t", "")]) == Given(NoOptions.(flags := {KeepTtitle}))
  {
    assert [("--keep-track-titles", "")][..0] == [];
    assert [("-t", "")][..0] == [];
  }

  /** Why the script stops before processing any file. */
  datatype Exit =
    | Help                    // -h or --help
    | PathMissing(path: string)  // validate_path: the input path does not exist
    | KeyMissing(setting: Setting)  // a KeyError on the dictionary
    | SameFolder              // -i and -o resolve to the same folder
    | TwoTitles               // -T together with --title in --pass-along

  /**
   * The input and output paths: the working directory when `-i` is not
   * among the arguments, `REMUXED` inside the input path when `-o` is not.
   * `existing` is the set of paths that exist on disk.
   */
  function ResolvePaths(o: UserOptions, argv: seq<string>, cwd: string, existing: set<string>): (r: Result<UserOptions, Exit>)
    ensures r.Success? ==> r.value.inPath.Some? && r.value.outPath.Some?
    ensures r.Success? ==> r.value == o.(inPath := r.value.inPath, outPath := r.value.outPath)
    ensures "-i" !in argv && r.Success? ==> r.value.inPath == Some(cwd + "/")
    ensures "-i" in argv && r.Success? ==> r.value.inPath == o.inPath && o.inPath.value in existing
    ensures "-i" in argv && o.inPath.None? ==> r == Failure(KeyMissing(InPath))
    ensures "-i" in argv && o.inPath.Some? && o.inPath.value !in existing ==> r == Failure(PathMissing(o.inPath.value))
    ensures r.Success? && "-o" !in argv ==> r.value.outPath.value == r.value.inPath.value + "REMUXED"
    ensures r.Success? && "-o" in argv ==> r.value.outPath == o.outPath
    ensures (("-i" !in argv || (o.inPath.Some? && o.inPath.value in existing)) &&
             ("-o" !in argv || o.outPath.Some?)) ==> r.Success?
  {
    var inPath: Result<string, Exit> :=
      if "-i" !in argv then Success(cwd + "/")
      else if o.inPath.None? then Failure(KeyMissing(InPath))
      else if o.inPath.value in existing then Success(o.inPath.value)
      else Failure(PathMissing(o.inPath.value));
    if inPath.Failure? then Failure(inPath.error)
    else
      var outPath := if "-o" !in argv then Some(inPath.value + "REMUXED") else o.outPath;
      if outPath.None? then Failure(KeyMissing(OutPath))
      else Success(o.(inPath := Some(inPath.value), outPath := outPath))
  }

  /** `os.path.normcase(p).rstrip('/\\')` on a POSIX system. */
  function FolderKey(p: string): string {
    RStrip(p, {'/', '\\'})
  }

  /** The two rejection checks, then `--simulate` turning on `verbose`. */
  function Validate(o: UserOptions): (r: Result<UserOptions, Exit>)
    requires o.inPath.Some? && o.outPath.Some?
  {
    if FolderKey(o.inPath.value) == FolderKey(o.outPath.value) then Failure(SameFolder)
    else if KeepTitle in o.flags && Contains(o.passAlong.GetOr(""), "--title") then Failure(TwoTitles)
    else if Simulate in o.flags then Success(o.(flags := o.flags + {Verbose}))
    else Success(o)
  }

  /** Options pass the checks exactly when the folders differ and no two titles are asked for. */
  lemma ValidateIff(o: UserOptions)
    requires o.inPath.Some? && o.outPath.Some?
    ensures Validate(o).Success? <==>
      FolderKey(o.inPath.value) != FolderKey(o.outPath.value) &&
      !(KeepTitle in o.flags && Contains(o.passAlong.GetOr(""), "--title"))
    ensures FolderKey(o.inPath.value) == FolderKey(o.outPath.value) ==> Validate(o) == Failure(SameFolder)
    ensures (FolderKey(o.inPath.value) != FolderKey(o.outPath.value) &&
             KeepTitle in o.flags && Contains(o.passAlong.GetOr(""), "--title")) ==> Validate(o) == Failure(TwoTitles)
    ensures Validate(o).Success? ==>
      Validate(o).value == o.(flags := if Simulate in o.flags then o.flags + {Verbose} else o.flags)
    ensures Validate(o).Success? ==> Validate(o).value.flags >= o.flags
    ensures Validate(o).Success? && Simulate in o.flags ==> Verbose in Validate(o).value.flags
  {
  }

  /** `get_user_input` after getopt: the option loop, the paths, the checks. */
  function UserInput(ps: seq<(string, string)>, argv: seq<string>, cwd: string, existing: set<string>): Result<UserOptions, Exit> {
    match FromPairs(ps)
    case HelpShown => Failure(Help)
    case Given(o) =>
      match ResolvePaths(o, argv, cwd, existing)
      case Failure(e) => Failure(e)
      case Success(o') => Validate(o')
  }

  /** The default output folder is never rejected as the input folder. */
  lemma DefaultOutputIsNotInput(ps: seq<(string, string)>, argv: seq<string>, cwd: string, existing: set<string>)
    requires "-o" !in argv
    ensures UserInput(ps, argv, cwd, existing) != Failure(SameFolder)
  {
    if FromPairs(ps).Given? {
      var r := ResolvePaths(FromPairs(ps).options, argv, cwd, existing);
      if r.Success? {
        var p := r.value.inPath.value;
        var q := p + "REMUXED";
        assert q[|q| - 1] == 'D';
        assert FolderKey(q) == q;
        assert |FolderKey(p)| <= |p|;
      }
    }
  }

  /** Trailing separators do not tell two folders apart. */
  lemma TrailingSeparatorsIgnored()
    ensures FolderKey("media/") == FolderKey("media")
    ensures FolderKey("media\\/") == FolderKey("media")
  {
    assert "media/"[..5] == "media";
    assert "media\\/"[..6] == "media\\";
    assert "media\\"[..5] == "media";
  }

  /** The option loop of `get_user_input` followed by its path resolution and checks. */
  method GetUserInput(ps: seq<(string, string)>, argv: seq<string>, cwd: string, existing: set<string>)
    returns (r: Result<UserOptions, Exit>)
    ensures r == UserInput(ps, argv, cwd, existing)
    ensures r.Success? ==> !(KeepTitle in r.value.flags && Contains(r.value.passAlong.GetOr(""), "--title"))
  {
    var given := NoOptions;
    for i := 0 to |ps|
      invariant FromPairs(ps[..i]) == Given(given)
    {
      assert ps[..i + 1][..i] == ps[..i];
      var (opt, arg) := ps[i];
      if IsHelp(opt) {
        HelpIff(ps);
        return Failure(Help);
      } else if opt in ValidOptions {
        ListArgvsAreListSettings(opt);
        if opt in ListArgvs {
          given := Store(given, ValidOptions[opt], Pieces(Split(arg, ',')));
        } else {
          given := Store(given, ValidOptions[opt], Plain(arg));
        }
      } else if opt in ValidOptionsBool {
        given := given.(flags := given.flags + {ValidOptionsBool[opt]});
      }
    }
    assert ps[..|ps|] == ps;
    var resolved := ResolvePaths(given, argv, cwd, existing);
    if resolved.Failure? {
      return Failure(resolved.error);
    }
    r := Validate(resolved.value);
  }
}
