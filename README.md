# batchmkvmerge in Dafny

batchmkvmerge remuxes Matroska (`.mkv`) files in bulk with MKVToolNix. For
each file it runs `mkvmerge -i -F json` for a JSON report of the file's tracks,
attachments, chapters and title. It turns the report into a track table and
an attachment table, then decides from the user's options which tracks stay
in the remux and which subtitle tracks go to `mkvextract`. Finally it builds
the two command lines.

This project models that core:

- `wrappers.dfy` (`Wrappers`): `Option` and `Result`.
- `text.dfy` (`Text`): the Python string operations the script relies on.
  These are `sep.join`, `str.split` on one character, `str(n)`, the `in`
  substring test, `rsplit(sep)[0]`, `rstrip` and POSIX `os.path.join`.
- `tables.dfy` (`Tables`): a Python dict with string keys, modelled as an
  ordered list of entries. `d[k] = v` replaces a present key in place and
  appends a new one.
- `options.dfy` (`Options`): `get_user_input` after getopt. This covers the
  option tables, the option loop, the input and output paths, and the two
  rejection checks. The options dictionary is a record: valued options are
  `Option` fields and boolean options are a set of flags.
- `inspector.dfy` (`Inspector`): `process_stdout`. It builds the track table
  keyed by each character of `str(id)`, the attachment table keyed by
  `str(id)`, the chapter and attachment flags, and the title.
- `selection.dfy` (`Selection`): the decision ladder of `create_command`,
  written as one declarative rule per category (video, audio, kept
  subtitles, extracted subtitles). It holds the lemmas about what each rule
  keeps.
- `command.dfy` (`Command`): `add_param`, `create_sub_cmd`,
  `process_options` and `create_command`. The loops are methods, each proved
  equal to a specification function. The loop of `create_command` is the
  method `SelectTracks`, which `CreateCommand` calls before assembling the
  commands. The ladder is the method `Route`, and `Route` is proved to take a
  track exactly when the category's rule does.

The script's quirks are kept as the code has them:

- A track id such as 12 is stored under the keys "1" and "2". A later track
  overwrites an earlier one under a shared digit, and the key keeps its
  original position.
- A missing track name or title becomes `''`.
- `--keep-track-titles` sets `keep_title`, not `keep_ttitle`.
- With `no_dupe` and `sub_lang`, the first subtitle track is kept whatever
  its language.
- `keep_att` is never read.
- An attachment is listed once per filter token found in its content type.
- A subtitle track with an unknown codec puts `None` into the mkvextract
  list. That `None` still counts towards the length test that decides
  whether `call_program` is invoked for mkvextract.

Two options do less than the script's own help text promises. The model
follows the code:

- The help text for `-K, --keep-att` says "Keep all attachments"
  (`batchmkvmerge.py:66-67`). `process_options` never reads `keep_att`, so
  only `--keepatt-type` decides which attachments stay.
- The help text for `--no-dupe` says only the first track of each language
  is kept (`batchmkvmerge.py:78-79`). With `--sub-lang`, the subtitle branch
  (`batchmkvmerge.py:431`) keeps the first subtitle track of any language.

For a subtitle with an unknown codec, `create_sub_cmd` prints an error and
returns `None` (`batchmkvmerge.py:545-546`). The `None` stays in the list
`create_command` builds (`batchmkvmerge.py:413`, `:417`). It counts towards
the length test at `batchmkvmerge.py:470`, so `call_program` is still invoked
for mkvextract. `call_program`, which is not part of this model, then drops
every `None` with `filter(None, cmd)` (`batchmkvmerge.py:556`). So the track
itself is not extracted. When every routed target is `None`, the filtered
list has only its first element, and mkvextract never starts.

## Model

| member | source | states |
|---|---|---|
| Text.ContainsIff | batchmkvmerge.py:499 | the substring test `at in s` holds exactly when some suffix of `s` starts with `at` |
| Text.Split | batchmkvmerge.py:181 | `arg.split(',')` gives at least one piece and no piece holds a comma |
| Text.JoinSplit | batchmkvmerge.py:181 | joining the pieces of a comma-split list argument with commas gives the argument back |
| Text.SplitJoin | batchmkvmerge.py:448-458 | splitting a comma join of comma-free ids gives the ids back |
| Text.NatToString | batchmkvmerge.py:316 | `str(id)` is a non-empty string of decimal digits |
| Text.ParseNatToString | batchmkvmerge.py:316 | reading the decimal form of an id back gives the id |
| Text.NatToStringInjective | batchmkvmerge.py:329 | distinct attachment ids give distinct keys `str(id)` |
| Text.NatToStringOneDigit | batchmkvmerge.py:316 | `str(id)` is one character exactly for ids below ten |
| Text.Before | batchmkvmerge.py:362 | `file.rsplit('.mkv')[0]` is the prefix of the name before its first `.mkv`, or the whole name when there is none |
| Text.RStrip | batchmkvmerge.py:213-214 | `rstrip('/\\')` removes exactly the trailing run of separators |
| Text.PathJoin | batchmkvmerge.py:352 | `os.path.join(a, b)` ends with `b`; an absolute `b` replaces `a`; otherwise one `/` is inserted unless `a` is empty or already ends with `/` |
| Tables.Lookup | batchmkvmerge.py:367 | a dict lookup finds nothing exactly when the key is absent |
| Tables.LookupAt | batchmkvmerge.py:367 | in a dict each key finds its own entry |
| Tables.PutKeys | batchmkvmerge.py:317 | `d[k] = v` keeps a present key in its place and appends a new key at the end |
| Tables.PutLookup | batchmkvmerge.py:317 | after `d[k] = v`, `k` finds `v` and every other key keeps its value |
| Tables.PutUnique | batchmkvmerge.py:317 | `d[k] = v` never makes a key appear twice |
| Tables.PutAbsent | batchmkvmerge.py:329 | `d[k] = v` for an absent key appends the entry |
| Tables.LookupSnoc | batchmkvmerge.py:329 | appending an entry leaves the lookups of the keys already present unchanged |
| Options.Store | batchmkvmerge.py:179-183 | storing an option sets that option and leaves every other option and every flag unchanged |
| Options.ListArgvsAreListSettings | batchmkvmerge.py:145-154 | an option's argument is split on commas exactly when the option is a list setting |
| Options.TablesDisjoint | batchmkvmerge.py:104-142 | no option is both a valued option and a boolean option |
| Options.HelpIff | batchmkvmerge.py:170-178 | the help text ends the script exactly when some pair is `-h` or `--help` |
| Options.FlagIff | batchmkvmerge.py:184-185 | a boolean option is set exactly when some pair names an option mapped to it |
| Options.LastValueWins | batchmkvmerge.py:179-183 | a valued option holds the argument of the last pair naming it, split on commas for list options |
| Options.KeepTrackTitlesSetsKeepTitle | batchmkvmerge.py:130-131 | `--keep-track-titles` sets `keep_title`, while `-t` sets `keep_ttitle` |
| Options.ResolvePaths | batchmkvmerge.py:200-209 | without `-i` the input path is the working directory plus `/`; with `-i` it is the given path, and a path that does not exist is the `PathMissing` exit; without `-o` the output is the input path plus `REMUXED`, with `-o` it is the given one; no other option changes |
| Options.ValidateIff | batchmkvmerge.py:213-222 | options pass exactly when the folders differ after stripping trailing separators and `-T` is not combined with `--title`; the same-folder exit is checked first, then the two-titles exit; on success the options are unchanged except that `--simulate` adds `verbose` |
| Options.DefaultOutputIsNotInput | batchmkvmerge.py:207-215 | the default output folder is never rejected as equal to the input folder |
| Options.TrailingSeparatorsIgnored | batchmkvmerge.py:213-214 | `media/` and `media\/` count as the folder `media` |
| Options.GetUserInput | batchmkvmerge.py:169-228 | the option loop, the path resolution and the checks give the specified outcome, and a success never combines `-T` with `--title` |
| Inspector.ProcessStdout | batchmkvmerge.py:309-345 | the file info equals the track table, attachment flag, attachment table, chapter flag and title of the report |
| Inspector.PutEachKeys | batchmkvmerge.py:316-318 | storing a track under each digit adds exactly the one-digit keys of those digits |
| Inspector.PutEachLookup | batchmkvmerge.py:316-318 | after storing a track under each digit of its id, those digits find that track and the other keys are unchanged |
| Inspector.PutEachUnique | batchmkvmerge.py:316-318 | storing under each digit keeps the keys unique |
| Inspector.TrackTableUnique | batchmkvmerge.py:315-324 | the track table never holds a key twice |
| Inspector.TrackTableKeys | batchmkvmerge.py:315-324 | the track table's keys are exactly the single digits of the track ids |
| Inspector.TrackTableLookup | batchmkvmerge.py:315-324 | under a digit stands the last track whose id contains that digit |
| Inspector.TrackTableSmallIds | batchmkvmerge.py:315-324 | with distinct ids below ten the table has one entry per track, keyed by `str(id)`, in report order |
| Inspector.TwoDigitIdExample | batchmkvmerge.py:315-324 | tracks 1 and 12 give the table `{"1": track 12, "2": track 12}` |
| Inspector.AttachmentTableUnique | batchmkvmerge.py:326-330 | the attachment table never holds a key twice |
| Inspector.AttachmentTableDistinct | batchmkvmerge.py:326-330 | with distinct ids the attachment table has one entry per attachment, keyed by the full `str(id)`, in report order |
| Selection.MatchingIndices | batchmkvmerge.py:366 | the positions of the matching tracks are all the matching positions and only those, in increasing order |
| Selection.ApplySnoc | batchmkvmerge.py:374-445 | one more track is taken exactly when it matches and, for a first-only rule, nothing was taken before |
| Selection.SelectIsRestriction | batchmkvmerge.py:366-445 | a selection is the tracks at the matching positions, in table order |
| Selection.EarliestMatch | batchmkvmerge.py:376 | the first matching position is at or before every matching position |
| Selection.FirstOnlyIsEarliest | batchmkvmerge.py:376 | a first-only rule keeps the earliest match, and keeps nothing exactly when nothing matches |
| Selection.VideoSelection | batchmkvmerge.py:375-381 | at most one video track is kept, the first one; none exactly when there is no video track |
| Selection.AudioSelection | batchmkvmerge.py:382-410 | without `audio_lang` the first audio track is kept; with `audio_lang` and `no_dupe` the first listed-language track; with `audio_lang` alone every listed-language track |
| Selection.SubtitleSelection | batchmkvmerge.py:420-445 | without extraction: `keep_sub` keeps every subtitle; no `sub_lang` keeps none; `sub_lang` with `no_dupe` keeps the first subtitle of any language; `sub_lang` alone keeps the listed languages |
| Selection.ExtractionSelection | batchmkvmerge.py:411-445 | with an extraction option no subtitle is kept; `extract_all_sub` extracts every subtitle, `extract_sub` the listed languages; no track is both kept and extracted |
| Selection.ApplyWithin | batchmkvmerge.py:374-445 | every kept track is a table entry meeting its rule's criterion |
| Selection.LanguageScenario | batchmkvmerge.py:374-445 | with `-a jpn -s eng` over video 0, audio 1 (jpn), audio 2 (eng) and subtitle 3 (eng), tracks 0, 1 and 3 are kept |
| Selection.NoDupeSubtitleScenario | batchmkvmerge.py:426-434 | `--no-dupe -s eng` over subtitles 3 (jpn) and 4 (eng) keeps track 3, though jpn is not listed |
| Command.ParamStart | batchmkvmerge.py:477-484 | a track's parameters start with `--language <id>:<lang> --track-name <id>:"` |
| Command.ParamEnd | batchmkvmerge.py:477-484 | a track's parameters end with `" --default-track <id>:<yes/no>` |
| Command.ParamDefault | batchmkvmerge.py:369-371 | the parameters end in `:yes` exactly for a default track |
| Command.ParamName | batchmkvmerge.py:478-483 | under `keep_ttitle` the quoted track name appears; otherwise the parameters do not depend on the name |
| Command.Params | batchmkvmerge.py:448 | one parameter string per kept track, in order |
| Command.ExtractTarget | batchmkvmerge.py:524-546 | an unknown codec gives `None`; otherwise the target is `<id>:"<out>[/<stem>]/<stem>.<id>_<lang><ext>"` |
| Command.ExtractTargetsAt | batchmkvmerge.py:413-419 | each routed subtitle has its own target at its own position |
| Command.ProcessOptions | batchmkvmerge.py:487-521 | the options string is the space join of the chapter flag, the attachment flag and the title flag |
| Command.CountMatchesPositive | batchmkvmerge.py:497-501 | an attachment matches at least once exactly when some filter token occurs in its content type |
| Command.MatchedAttachmentsCount | batchmkvmerge.py:496-502 | each attachment id is listed once per filter token in its content type, and no other id is listed |
| Command.MatchedAttachmentsEmpty | batchmkvmerge.py:496-512 | no id is listed exactly when no filter token occurs in any content type |
| Command.AttachmentFlagSpec | batchmkvmerge.py:494-513 | `--no-attachments` exactly when `keepatt_type` is absent or matches nothing; `keep_att` changes nothing |
| Command.InfileOptionsSpec | batchmkvmerge.py:490-518 | `--no-chapters` exactly without `keep_chapt`; the title is `""` without `keep_title` unless `--title` is passed along, the container's title with `keep_title`, and absent otherwise |
| Command.CategoryFlags | batchmkvmerge.py:447-460 | each of the video, audio and subtitle flags is `--no-video`, `--no-audio` or `--no-subtitles` exactly when that category keeps nothing; otherwise it starts with its `--…-tracks` flag and the kept ids |
| Command.TrackFlagIsNoFlag | batchmkvmerge.py:447-460 | a category's flag is its "no" flag exactly when nothing of it is kept; otherwise it lists the kept ids |
| Command.KeptIdsReadBack | batchmkvmerge.py:448-458 | the comma-joined ids of a category read back as the kept ids |
| Command.CallsExtractIff | batchmkvmerge.py:470-471 | `call_program` is invoked for mkvextract exactly when an extraction option is set and some subtitle is routed to it, the list being one longer than the routed subtitles |
| Command.UnknownCodecStillCounts | batchmkvmerge.py:470-471 | a lone subtitle with an unknown codec gives the list `[prefix, None]`, and the decision to invoke `call_program` for mkvextract still holds |
| Command.Route | batchmkvmerge.py:374-445 | the ladder sends a track to a category exactly when that category's rule takes it |
| Command.SelectTracks | batchmkvmerge.py:366-445 | the loop's kept ids, parameters and mkvextract command equal the selection rules' results |
| Command.OutputTarget | batchmkvmerge.py:361-364 | the `-o` target is `<out>/<file>`, or `<out>/<stem>/<file>` under `new_folder` |
| Command.CreateCommand | batchmkvmerge.py:348-474 | the mkvmerge command, the mkvextract list and the decision to invoke `call_program` for mkvextract equal their specifications |

## Left out

- `get_mkv_info` and `call_program` are not modelled. They run subprocesses, with timeouts, progress output and `sys.exit` on errors. The report is taken as an already parsed record, and the commands are returned instead of being run. Before running mkvextract, `call_program` drops the `None` targets with `filter(None, cmd)` and joins the list only when more than its first element remains; neither step is modelled.
- `json.loads` is not modelled. A report missing `tracks`, `attachments`, `chapters`, `type` or a codec, language or default-track property (a `KeyError` in `process_stdout`) cannot be expressed.
- Negative track or attachment ids are not modelled: ids are `nat`.
- `scan_for_files` (walking the folders), `trash_file`, the option help text, the no-colour rewrite of the status prefixes, and every `print` (verbose output, the "Keeping track" listing, the "no matching subtitles" notice) are not modelled.
- getopt tokenising is not modelled. `GetUserInput` starts from getopt's `(option, argument)` pairs and the raw argument list. A getopt error exit is not modelled.
- `os.getcwd()` and `os.path.exists` are parameters: `cwd` and the set `existing`.
- `os.path.normcase` is the identity, as on POSIX. `os.sep` is `/`.
- Command.Route: the `while True` around the ladder loops forever for a track whose kind is not video, audio or subtitles. The model requires every kind to be one of the three (`KnownKinds`) and runs the ladder once.
- Command.ParamName: the `name is not False` test is not modelled, because a track name is always a string.
- Command.ExtractTarget: the explicit target form is stated only for a non-empty file name without `/` that does not start with `.mkv`, and a non-empty output path without a trailing `/`. Other paths follow `Text.PathJoin`.
- Command.OutputTarget: the explicit `-o` form is stated under the same conditions as `Command.ExtractTarget`. Other paths follow `Text.PathJoin`.
