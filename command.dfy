/**
 * The command strings for mkvmerge and mkvextract: `add_param`,
 * `create_sub_cmd`, `process_options` and `create_command`.
 */
module Command {
  import opened Wrappers
  import opened Text
  import opened Tables
  import opened Options
  import opened Inspector
  import opened Selection

  /** `add_param`: language, name and default flag of one kept track. */
  function AddParam(track: string, lang: string, isDef: string, name: string, o: UserOptions): string {
    if KeepTtitle in o.flags then
      "--language " + track + ":" + lang + " --track-name " + track + ":\"" + name +
      "\" --default-track " + track + ":" + isDef
    else
      "--language " + track + ":" + lang + " --track-name " + track + ":\"\"" +
      " --default-track " + track + ":" + isDef
  }

  /** `is_def`: "yes" exactly when the report's `default_track` is true. */
  function IsDef(defaultTrack: bool): string {
    if defaultTrack then "yes" else "no"
  }

  /** The parameters `create_command` renders for a table entry. */
  function Param(e: Entry<TrackInfo>, o: UserOptions): string {
    AddParam(e.key, e.value.language, IsDef(e.value.defaultTrack), e.value.trackName, o)
  }

  /** A kept track's parameters start with its id and language, then the start of its quoted name. */
  lemma ParamStart(e: Entry<TrackInfo>, o: UserOptions)
    ensures StartsWith(Param(e, o), "--language " + e.key + ":" + e.value.language + " --track-name " + e.key + ":\"")
  {
    var track, isDef := e.key, IsDef(e.value.defaultTrack);
    var h := "--language " + track + ":" + e.value.language + " --track-name " + track;
    var head := h + ":\"";
    if KeepTtitle in o.flags {
      assert head[..|head|] == head;
      StartsWithExtend(head, head, e.value.trackName);
      StartsWithExtend(head + e.value.trackName, head, "\" --default-track ");
      StartsWithExtend(head + e.value.trackName + "\" --default-track ", head, track);
      StartsWithExtend(head + e.value.trackName + "\" --default-track " + track, head, ":");
      StartsWithExtend(head + e.value.trackName + "\" --default-track " + track + ":", head, isDef);
    } else {
      assert (h + ":\"\"")[..|head|] == head;
      StartsWithExtend(h + ":\"\"", head, " --default-track ");
      StartsWithExtend(h + ":\"\"" + " --default-track ", head, track);
      StartsWithExtend(h + ":\"\"" + " --default-track " + track, head, ":");
      StartsWithExtend(h + ":\"\"" + " --default-track " + track + ":", head, isDef);
    }
  }

  /** A kept track's parameters end with the end of its quoted name, its id and its default flag. */
  lemma ParamEnd(e: Entry<TrackInfo>, o: UserOptions)
    ensures EndsWith(Param(e, o), "\" --default-track " + e.key + ":" + IsDef(e.value.defaultTrack))
  {
    var track, isDef := e.key, IsDef(e.value.defaultTrack);
    var h := "--language " + track + ":" + e.value.language + " --track-name " + track;
    var q := "\" --default-track ";
    var body;
    if KeepTtitle in o.flags {
      body := h + ":\"" + e.value.trackName + q;
      assert body[|body| - |q|..] == q;
    } else {
      var a := h + ":\"\"";
      body := a + " --default-track ";
      assert "\"" + " --default-track " == q;
      assert body[|body| - |q|..] == a[|a| - 1..] + " --default-track ";
    }
    EndsWithExtend(body, q, track);
    EndsWithExtend(body + track, q + track, ":");
    EndsWithExtend(body + track + ":", q + track + ":", isDef);
  }

  /** The parameters end in `:yes` exactly for a default track. */
  lemma ParamDefault(e: Entry<TrackInfo>, o: UserOptions)
    ensures EndsWith(Param(e, o), ":yes") <==> e.value.defaultTrack
  {
    var p := Param(e, o);
    var tail := "\" --default-track " + e.key + ":" + IsDef(e.value.defaultTrack);
    ParamEnd(e, o);
    assert p[|p| - |tail|..] == tail;
    if e.value.defaultTrack {
      assert tail[|tail| - 4..] == ":yes";
      assert p[|p| - 4..] == tail[|tail| - 4..];
    } else {
      assert p[|p| - 1] == tail[|tail| - 1] == 'o';
      assert ":yes"[3] == 's';
    }
  }

  /**
   * The track's name shows, quoted, only under `keep_ttitle`; otherwise the
   * name is `""` whatever the track is called.
   */
  lemma ParamName(e: Entry<TrackInfo>, o: UserOptions, otherName: string)
    ensures KeepTtitle in o.flags ==> Contains(Param(e, o), ":\"" + e.value.trackName + "\" --default-track ")
    ensures KeepTtitle !in o.flags ==> Param(e, o) == Param(e.(value := e.value.(trackName := otherName)), o)
  {
    if KeepTtitle in o.flags {
      var head := "--language " + e.key + ":" + e.value.language + " --track-name " + e.key;
      var needle := ":\"" + e.value.trackName + "\" --default-track ";
      var rest := e.key + ":" + IsDef(e.value.defaultTrack);
      assert Param(e, o) == head + needle + rest;
      ContainsMiddle(head, needle, rest);
    }
  }

  /** The parameters of a run of entries, in order. */
  function Params(es: seq<Entry<TrackInfo>>, o: UserOptions): (ps: seq<string>)
    ensures |ps| == |es|
    ensures forall i :: 0 <= i < |es| ==> ps[i] == Param(es[i], o)
    decreases |es|
  {
    if |es| == 0 then [] else Params(es[..|es| - 1], o) + [Param(es[|es| - 1], o)]
  }

  /** The subtitle codecs mkvextract can write, with their file extensions. */
  const CodecExtensions: map<string, string> := map[
    "S_TEXT/UTF8" := ".srt",
    "S_TEXT/SSA" := ".ssa",
    "S_TEXT/ASS" := ".ass",
    "S_TEXT/USF" := ".usf",
    "S_TEXT/WEBVTT" := ".vtt",
    "S_VOBSUB" := ".idx",
    "S_HDMV/PGS" := ".sup"]

  /** `file.rsplit('.mkv')[0]`. */
  function Stem(file: string): string {
    Before(file, ".mkv")
  }

  /** `create_sub_cmd`: the mkvextract target of a subtitle track, or `None` for a codec without an extension. */
  function CreateSubCmd(file: string, track: string, info: TrackInfo, o: UserOptions): Option<string>
    requires o.outPath.Some?
  {
    if info.codecId !in CodecExtensions then None
    else
      var ext := CodecExtensions[info.codecId];
      var stem := Stem(file);
      var base := if NewFolder in o.flags then PathJoin(PathJoin(o.outPath.value, stem), stem)
                  else PathJoin(o.outPath.value, stem);
      Some(track + ":\"" + base + "." + track + "_" + info.language + ext + "\"")
  }

  /**
   * For a plain file name and an output path without a trailing `/`, the
   * target is `T:"<out>[/<stem>]/<stem>.T_<lang><ext>"`, the stem being
   * the name up to its first `.mkv`; an unknown codec
   * gives `None`.
   */
  lemma ExtractTarget(file: string, track: string, info: TrackInfo, o: UserOptions)
    requires o.outPath.Some? && o.outPath.value != "" && !EndsWith(o.outPath.value, "/")
    requires file != "" && '/' !in file && !StartsWith(file, ".mkv")
    ensures CreateSubCmd(file, track, info, o).None? <==> info.codecId !in CodecExtensions
    ensures info.codecId in CodecExtensions ==>
      var stem := Stem(file);
      var dir := if NewFolder in o.flags then o.outPath.value + "/" + stem else o.outPath.value;
      CreateSubCmd(file, track, info, o) == Some(
        track + ":\"" + dir + "/" + stem + "." + track + "_" + info.language + CodecExtensions[info.codecId] + "\"")
  {
    var out, stem := o.outPath.value, Stem(file);
    var dir := if NewFolder in o.flags then out + "/" + stem else out;
    TargetBase(out, file, NewFolder in o.flags);
    Regroup2(track + ":\"", dir, "/", stem);
  }

  /** The stem of a plain file name is a non-empty name without `/`. */
  lemma StemShape(file: string)
    requires file != "" && '/' !in file && !StartsWith(file, ".mkv")
    ensures Stem(file) != "" && !StartsWith(Stem(file), "/") && !EndsWith(Stem(file), "/")
  {
    var stem := Stem(file);
    assert stem != "";
    assert stem[0] == file[0] && stem[|stem| - 1] == file[|stem| - 1];
    assert file[0] in file && file[|stem| - 1] in file;
  }

  /** The directory part of an extraction target, with and without `new_folder`. */
  lemma TargetBase(out: string, file: string, newFolder: bool)
    requires out != "" && !EndsWith(out, "/")
    requires file != "" && '/' !in file && !StartsWith(file, ".mkv")
    ensures var stem := Stem(file);
      (if newFolder then PathJoin(PathJoin(out, stem), stem) else PathJoin(out, stem)) ==
      (if newFolder then out + "/" + stem else out) + "/" + stem
  {
    var stem := Stem(file);
    StemShape(file);
    var dir := out + "/" + stem;
    assert dir[|dir| - 1] == stem[|stem| - 1];
  }

  /** The extraction targets of the routed subtitle tracks: one slot per track, `None` included. */
  function ExtractTargets(file: string, es: seq<Entry<TrackInfo>>, o: UserOptions): (ts: seq<Option<string>>)
    requires o.outPath.Some?
    ensures |ts| == |es|
    decreases |es|
  {
    if |es| == 0 then []
    else
      var e := es[|es| - 1];
      ExtractTargets(file, es[..|es| - 1], o) + [CreateSubCmd(file, e.key, e.value, o)]
  }

  /** One more routed track adds its target at the end. */
  lemma ExtractTargetsSnoc(file: string, es: seq<Entry<TrackInfo>>, e: Entry<TrackInfo>, o: UserOptions)
    requires o.outPath.Some?
    ensures ExtractTargets(file, es + [e], o) == ExtractTargets(file, es, o) + [CreateSubCmd(file, e.key, e.value, o)]
  {
    assert (es + [e])[..|es|] == es;
  }

  /** Each routed track has its own target slot, at its own position. */
  lemma {:induction false} ExtractTargetsAt(file: string, es: seq<Entry<TrackInfo>>, o: UserOptions, i: nat)
    requires o.outPath.Some? && i < |es|
    ensures ExtractTargets(file, es, o)[i] == CreateSubCmd(file, es[i].key, es[i].value, o)
    decreases |es|
  {
    if i < |es| - 1 {
      ExtractTargetsAt(file, es[..|es| - 1], o, i);
    }
  }

  /** How many filter tokens occur in a content type. */
  function CountMatches(types: seq<string>, contentType: string): nat
    decreases |types|
  {
    if |types| == 0 then 0
    else CountMatches(types[..|types| - 1], contentType) + (if Contains(contentType, types[|types| - 1]) then 1 else 0)
  }

  function Repeat(k: string, n: nat): (r: seq<string>)
    ensures |r| == n
    ensures forall i :: 0 <= i < n ==> r[i] == k
  {
    seq(n, _ => k)
  }

  /** The attachment ids `process_options` keeps: each once per filter token in its content type, in table order. */
  function MatchedAttachments(att: seq<Entry<AttachmentInfo>>, types: seq<string>): seq<string>
    decreases |att|
  {
    if |att| == 0 then []
    else
      var a := att[|att| - 1];
      MatchedAttachments(att[..|att| - 1], types) + Repeat(a.key, CountMatches(types, a.value.contentType))
  }

  /** The attachment flag: the kept ids, or `--no-attachments`. `keep_att` is never read. */
  function AttachmentFlag(att: seq<Entry<AttachmentInfo>>, o: UserOptions): string {
    match o.keepattType
    case None => "--no-attachments"
    case Some(types) =>
      var kept := MatchedAttachments(att, types);
      if kept != [] then "--attachments " + Join(",", kept) else "--no-attachments"
  }

  /** The title flag: an empty title, the container's title, or none when `--title` is passed along. */
  function TitleFlags(title: string, o: UserOptions): seq<string> {
    if KeepTitle !in o.flags && !Contains(o.passAlong.GetOr("None"), "--title") then ["--title \"\""]
    else if KeepTitle in o.flags then ["--title \"" + title + "\""]
    else []
  }

  /** The list `process_options` joins: chapters, attachments, title. */
  function InfileOptions(title: string, att: seq<Entry<AttachmentInfo>>, o: UserOptions): seq<string> {
    (if KeepChapt in o.flags then [] else ["--no-chapters"]) + [AttachmentFlag(att, o)] + TitleFlags(title, o)
  }

  /** `process_options`, with its nested loop over attachments and filter tokens. */
  method ProcessOptions(title: string, att: seq<Entry<AttachmentInfo>>, o: UserOptions) returns (cmd: string)
    ensures cmd == Join(" ", InfileOptions(title, att, o))
  {
    var infileOptions: seq<string> := [];
    if KeepChapt !in o.flags {
      infileOptions := infileOptions + ["--no-chapters"];
    }

    if o.keepattType.Some? {
      var types := o.keepattType.value;
      var keepAtt: seq<string> := [];
      for i := 0 to |att|
        invariant keepAtt == MatchedAttachments(att[..i], types)
      {
        var a := att[i];
        for j := 0 to |types|
          invariant keepAtt == MatchedAttachments(att[..i], types) + Repeat(a.key, CountMatches(types[..j], a.value.contentType))
        {
          if Contains(a.value.contentType, types[j]) {
            keepAtt := keepAtt + [a.key];
          }
          assert types[..j + 1][..j] == types[..j];
        }
        assert types[..|types|] == types;
        assert att[..i + 1][..i] == att[..i];
      }
      assert att[..|att|] == att;
      if keepAtt != [] {
        infileOptions := infileOptions + ["--attachments " + Join(",", keepAtt)];
      } else {
        infileOptions := infileOptions + ["--no-attachments"];
      }
    } else {
      infileOptions := infileOptions + ["--no-attachments"];
    }
    assert infileOptions == (if KeepChapt in o.flags then [] else ["--no-chapters"]) + [AttachmentFlag(att, o)];

    if KeepTitle !in o.flags && !Contains(o.passAlong.GetOr("None"), "--title") {
      infileOptions := infileOptions + ["--title \"\""];
    } else if KeepTitle in o.flags {
      infileOptions := infileOptions + ["--title \"" + title + "\""];
    }
    assert infileOptions == InfileOptions(title, att, o);

    cmd := Join(" ", infileOptions);
  }

  /** How many filter tokens match is positive exactly when some token occurs in the content type. */
  lemma {:induction false} CountMatchesPositive(types: seq<string>, contentType: string)
    ensures CountMatches(types, contentType) > 0 <==> exists t :: t in types && Contains(contentType, t)
    decreases |types|
  {
    if |types| > 0 {
      var init, last := types[..|types| - 1], types[|types| - 1];
      CountMatchesPositive(init, contentType);
      assert types == init + [last];
      if exists t :: t in types && Contains(contentType, t) {
        var t :| t in types && Contains(contentType, t);
        assert t in init || t == last;
      }
      if CountMatches(init, contentType) > 0 {
        var t :| t in init && Contains(contentType, t);
        assert t in types;
      }
    }
  }

  /**
   * With unique attachment keys, an attachment's id is kept once for every
   * filter token found in its content type, and no other id is kept.
   */
  lemma {:induction false} MatchedAttachmentsCount(att: seq<Entry<AttachmentInfo>>, types: seq<string>, k: string)
    requires UniqueKeys(att)
    ensures multiset(MatchedAttachments(att, types))[k] ==
      match Lookup(att, k)
      case None => 0
      case Some(a) => CountMatches(types, a.contentType)
    decreases |att|
  {
    if |att| > 0 {
      var init := att[..|att| - 1];
      var a := att[|att| - 1];
      assert att == init + [a];
      MatchedAttachmentsCount(init, types, k);
      LookupSnoc(init, a, k);
      var n := CountMatches(types, a.value.contentType);
      var r := Repeat(a.key, n);
      assert multiset(r)[k] == if a.key == k then n else 0 by {
        RepeatCount(a.key, n, k);
      }
      if a.key == k {
        forall i | 0 <= i < |init| ensures init[i].key != k {
          assert att[i] == init[i];
        }
        assert k !in Keys(init);
      }
    }
  }

  lemma {:induction false} RepeatCount(x: string, n: nat, k: string)
    ensures multiset(Repeat(x, n))[k] == if x == k then n else 0
    decreases n
  {
    if n > 0 {
      assert Repeat(x, n) == Repeat(x, n - 1) + [x];
      RepeatCount(x, n - 1, k);
    }
  }

  /** No id is kept exactly when no filter token occurs in any content type. */
  lemma {:induction false} MatchedAttachmentsEmpty(att: seq<Entry<AttachmentInfo>>, types: seq<string>)
    ensures MatchedAttachments(att, types) == [] <==>
      forall i, t :: 0 <= i < |att| && t in types ==> !Contains(att[i].value.contentType, t)
    decreases |att|
  {
    if |att| > 0 {
      var init := att[..|att| - 1];
      var a := att[|att| - 1];
      MatchedAttachmentsEmpty(init, types);
      CountMatchesPositive(types, a.value.contentType);
      assert forall i :: 0 <= i < |init| ==> init[i] == att[i];
    }
  }

  /**
   * `--no-attachments` is emitted exactly when `keepatt_type` is absent or
   * matches nothing; `keep_att` changes nothing.
   */
  lemma AttachmentFlagSpec(att: seq<Entry<AttachmentInfo>>, o: UserOptions)
    ensures AttachmentFlag(att, o) == "--no-attachments" <==>
      o.keepattType.None? ||
      forall i, t :: 0 <= i < |att| && t in o.keepattType.value ==> !Contains(att[i].value.contentType, t)
    ensures AttachmentFlag(att, o) == AttachmentFlag(att, o.(flags := o.flags + {KeepAtt}))
  {
    if o.keepattType.Some? {
      MatchedAttachmentsEmpty(att, o.keepattType.value);
      var f := "--attachments " + Join(",", MatchedAttachments(att, o.keepattType.value));
      assert f[2] == 'a';
      assert "--no-attachments"[2] == 'n';
    }
  }

  /**
   * `--no-chapters` is in the options exactly when `keep_chapt` is absent;
   * the title flag is `--title ""` without `keep_title` unless `--title` is
   * passed along, the container's title with `keep_title`, and nothing
   * otherwise.
   */
  lemma InfileOptionsSpec(title: string, att: seq<Entry<AttachmentInfo>>, o: UserOptions)
    ensures "--no-chapters" in InfileOptions(title, att, o) <==> KeepChapt !in o.flags
    ensures KeepTitle !in o.flags && !Contains(o.passAlong.GetOr(""), "--title") ==>
      TitleFlags(title, o) == ["--title \"\""]
    ensures KeepTitle in o.flags ==> TitleFlags(title, o) == ["--title \"" + title + "\""]
    ensures KeepTitle !in o.flags && Contains(o.passAlong.GetOr(""), "--title") ==> TitleFlags(title, o) == []
  {
    var nc := "--no-chapters";
    var af := AttachmentFlag(att, o);
    assert af != nc by {
      if o.keepattType.Some? && MatchedAttachments(att, o.keepattType.value) != [] {
        assert af[2] != nc[2];
      } else {
        assert af[5] != nc[5];
      }
    }
    forall f | f in TitleFlags(title, o) ensures f != nc {
      assert f[2] != nc[2];
    }
    if o.passAlong.None? {
      assert !Contains("None", "--title") by {
        ContainsIff("None", "--title");
      }
    }
  }

  /** The flag of one track category: the kept ids and their parameters, or the category's "no" flag. */
  function TrackFlag(tracksFlag: string, noFlag: string, kept: seq<Entry<TrackInfo>>, o: UserOptions): string {
    if |kept| > 0 then tracksFlag + Join(",", Keys(kept)) + " " + Join(" ", Params(kept, o))
    else noFlag
  }

  /** A category's flag is its "no" flag exactly when nothing of it is kept. */
  lemma TrackFlagIsNoFlag(tracksFlag: string, noFlag: string, kept: seq<Entry<TrackInfo>>, o: UserOptions)
    requires !StartsWith(noFlag, tracksFlag)
    ensures TrackFlag(tracksFlag, noFlag, kept, o) == noFlag <==> kept == []
    ensures kept != [] ==> StartsWith(TrackFlag(tracksFlag, noFlag, kept, o), tracksFlag + Join(",", Keys(kept)) + " ")
  {
    if kept != [] {
      var f := TrackFlag(tracksFlag, noFlag, kept, o);
      assert f[..|tracksFlag|] == tracksFlag;
      var lead := tracksFlag + Join(",", Keys(kept)) + " ";
      assert f[..|lead|] == lead;
    }
  }

  /**
   * The three category flags of `MergeCommand`: each is its "no" flag exactly
   * when the category keeps nothing, and otherwise starts with the kept ids.
   */
  lemma CategoryFlags(tracks: seq<Entry<TrackInfo>>, o: UserOptions)
    ensures var v := KeptVideo(tracks);
      (TrackFlag("--video-tracks ", "--no-video", v, o) == "--no-video" <==> v == []) &&
      (v != [] ==> StartsWith(TrackFlag("--video-tracks ", "--no-video", v, o), "--video-tracks " + Join(",", Keys(v)) + " "))
    ensures var a := KeptAudio(tracks, o);
      (TrackFlag("--audio-tracks ", "--no-audio", a, o) == "--no-audio" <==> a == []) &&
      (a != [] ==> StartsWith(TrackFlag("--audio-tracks ", "--no-audio", a, o), "--audio-tracks " + Join(",", Keys(a)) + " "))
    ensures var s := KeptSubtitles(tracks, o);
      (TrackFlag("--subtitle-tracks ", "--no-subtitles", s, o) == "--no-subtitles" <==> s == []) &&
      (s != [] ==> StartsWith(TrackFlag("--subtitle-tracks ", "--no-subtitles", s, o), "--subtitle-tracks " + Join(",", Keys(s)) + " "))
  {
    FlagPairDiffers("--video-tracks ", "--no-video", KeptVideo(tracks), o);
    FlagPairDiffers("--audio-tracks ", "--no-audio", KeptAudio(tracks, o), o);
    FlagPairDiffers("--subtitle-tracks ", "--no-subtitles", KeptSubtitles(tracks, o), o);
  }

  /** A category flag pair whose names differ at their third character. */
  lemma FlagPairDiffers(tracksFlag: string, noFlag: string, kept: seq<Entry<TrackInfo>>, o: UserOptions)
    requires |tracksFlag| > 2 && |noFlag| > 2 && tracksFlag[2] != noFlag[2]
    ensures TrackFlag(tracksFlag, noFlag, kept, o) == noFlag <==> kept == []
    ensures kept != [] ==> StartsWith(TrackFlag(tracksFlag, noFlag, kept, o), tracksFlag + Join(",", Keys(kept)) + " ")
  {
    TrackFlagIsNoFlag(tracksFlag, noFlag, kept, o);
  }


  /**
   * The id list of a category flag reads back, split on commas, as the
   * kept ids in kept order: the track table's keys are single digits.
   */
  lemma KeptIdsReadBack(ts: seq<TrackReport>, r: Rule)
    requires Apply(TrackTable(ts), r) != []
    ensures Split(Join([','], Keys(Apply(TrackTable(ts), r))), ',') == Keys(Apply(TrackTable(ts), r))
  {
    var kept := Apply(TrackTable(ts), r);
    ApplyWithin(TrackTable(ts), r);
    forall i | 0 <= i < |kept| ensures ',' !in Keys(kept)[i] {
      var k := kept[i].key;
      assert kept[i] in kept;
      assert k in Keys(TrackTable(ts)) by {
        var j :| 0 <= j < |TrackTable(ts)| && TrackTable(ts)[j] == kept[i];
        assert Keys(TrackTable(ts))[j] == k;
      }
      TrackTableKeys(ts, k);
      var n :| 0 <= n < |ts| && k[0] in NatToString(ts[n].id);
      assert k == [k[0]];
    }
    SplitJoin(Keys(kept), ',');
  }

  /** `-o "<out>[/<stem>]/<file>"`. */
  function OutputFlag(file: string, o: UserOptions): string
    requires o.outPath.Some?
  {
    if NewFolder in o.flags then "-o \"" + PathJoin(PathJoin(o.outPath.value, Stem(file)), file) + "\""
    else "-o \"" + PathJoin(o.outPath.value, file) + "\""
  }

  /**
   * For a plain file name and an output folder without a trailing `/`, the
   * `-o` target is `<out>/<file>`, or `<out>/<stem>/<file>` under `new_folder`.
   */
  lemma OutputTarget(file: string, o: UserOptions)
    requires o.outPath.Some? && o.outPath.value != "" && !EndsWith(o.outPath.value, "/")
    requires file != "" && '/' !in file && !StartsWith(file, ".mkv")
    ensures var dir := if NewFolder in o.flags then o.outPath.value + "/" + Stem(file) else o.outPath.value;
      OutputFlag(file, o) == "-o \"" + dir + "/" + file + "\""
  {
    var out := o.outPath.value;
    var dir := if NewFolder in o.flags then out + "/" + Stem(file) else out;
    OutputBase(out, file, NewFolder in o.flags);
    Regroup3("-o \"", dir, "/", file, "\"");
  }

  /** Bracketing the last three of four pieces does not change their concatenation. */
  lemma Regroup2<T>(a: seq<T>, b: seq<T>, c: seq<T>, d: seq<T>)
    ensures a + (b + c + d) == a + b + c + d
  {
  }

  /** Bracketing the middle three of five pieces does not change their concatenation. */
  lemma Regroup3<T>(a: seq<T>, b: seq<T>, c: seq<T>, d: seq<T>, e: seq<T>)
    ensures a + (b + c + d) + e == a + b + c + d + e
  {
  }

  /** The joined `-o` path, with and without `new_folder`. */
  lemma OutputBase(out: string, file: string, newFolder: bool)
    requires out != "" && !EndsWith(out, "/")
    requires file != "" && '/' !in file && !StartsWith(file, ".mkv")
    ensures var stem := Stem(file);
      (if newFolder then PathJoin(PathJoin(out, stem), file) else PathJoin(out, file)) ==
      (if newFolder then out + "/" + stem else out) + "/" + file
  {
    var stem := Stem(file);
    StemShape(file);
    assert file[0] != '/' by {
      assert file[0] in file;
    }
    var dir := out + "/" + stem;
    assert dir[|dir| - 1] == stem[|stem| - 1];
  }

  /** The first element of the mkvextract command. */
  function ExtractPrefix(file: string, root: string): string {
    "mkvextract tracks \"" + PathJoin(root, file) + "\" "
  }

  /** The two command lists `create_command` builds, and whether it invokes `call_program` for mkvextract. */
  datatype Invocation = Invocation(merge: seq<string>, extract: seq<Option<string>>, callExtract: bool)

  function MergeCommand(file: string, root: string, info: FileInfo, o: UserOptions): seq<string>
    requires o.outPath.Some?
  {
    ["mkvmerge"] + (if o.passAlong.Some? then [o.passAlong.value] else []) +
    [ OutputFlag(file, o),
      TrackFlag("--video-tracks ", "--no-video", KeptVideo(info.tracks), o),
      TrackFlag("--audio-tracks ", "--no-audio", KeptAudio(info.tracks, o), o),
      TrackFlag("--subtitle-tracks ", "--no-subtitles", KeptSubtitles(info.tracks, o), o),
      Join(" ", InfileOptions(info.title, info.attachments, o)),
      "\"" + PathJoin(root, file) + "\"" ]
  }

  function ExtractCommandOf(file: string, root: string, table: seq<Entry<TrackInfo>>, o: UserOptions): seq<Option<string>>
    requires o.outPath.Some?
  {
    [Some(ExtractPrefix(file, root))] + ExtractTargets(file, ExtractedSubtitles(table, o), o)
  }

  /** `call_program` is invoked for mkvextract when an extraction option is set and the list has more than its first element. */
  predicate CallsExtract(o: UserOptions, extract: seq<Option<string>>) {
    (o.extractSub.Some? && |extract| > 1) || (ExtractAllSub in o.flags && |extract| > 1)
  }

  function Commands(file: string, root: string, info: FileInfo, o: UserOptions): Invocation
    requires o.outPath.Some?
  {
    var extract := ExtractCommandOf(file, root, info.tracks, o);
    Invocation(MergeCommand(file, root, info, o), extract, CallsExtract(o, extract))
  }

  /**
   * `call_program` is invoked for mkvextract exactly when an extraction
   * option is set and some subtitle track is routed to it, even when every
   * routed track has an unknown codec and so only a `None` target.
   */
  lemma CallsExtractIff(file: string, root: string, info: FileInfo, o: UserOptions)
    requires o.outPath.Some?
    ensures Commands(file, root, info, o).callExtract <==> Extracting(o) && ExtractedSubtitles(info.tracks, o) != []
    ensures |Commands(file, root, info, o).extract| == 1 + |ExtractedSubtitles(info.tracks, o)|
  {
  }

  /**
   * One pass of the decision ladder in `create_command`'s loop: whether the
   * track goes to the video, audio or subtitle selection, or to extraction,
   * given which selections are still empty. It is the decision each rule
   * makes for one more entry.
   */
  method Route(e: Entry<TrackInfo>, noVideo: bool, noAudio: bool, noSubtitles: bool, o: UserOptions)
    returns (toVideo: bool, toAudio: bool, toSubtitles: bool, toExtract: bool)
    requires e.value.kind in {Video, Audio, Subtitles}
    ensures toVideo == Takes(VideoRule, e, noVideo)
    ensures toAudio == Takes(AudioRule(o), e, noAudio)
    ensures toSubtitles == Takes(SubtitleRule(o), e, noSubtitles)
    ensures toExtract == Takes(ExtractRule(o), e, true)
  {
    toVideo, toAudio, toSubtitles, toExtract := false, false, false, false;
    var lang := e.value.language;
    if e.value.kind == Video {
      if noVideo {
        toVideo := true;
      }
    } else if e.value.kind == Audio {
      if NoDupe !in o.flags && o.audioLang.None? {
        if noAudio {
          toAudio := true;
        }
      } else if NoDupe in o.flags {
        if o.audioLang.Some? && lang in o.audioLang.value {
          if noAudio {
            toAudio := true;
          }
        } else if o.audioLang.None? && noAudio {
          toAudio := true;
        }
      } else if o.audioLang.Some? {
        if lang in o.audioLang.value {
          toAudio := true;
        }
      }
    } else {
      if ExtractAllSub in o.flags {
        toExtract := true;
      } else if o.extractSub.Some? {
        if lang in o.extractSub.value {
          toExtract := true;
        }
      } else {
        if KeepSub in o.flags {
          toSubtitles := true;
        } else if NoDupe !in o.flags && o.subLang.None? {
        } else if NoDupe in o.flags {
          if o.subLang.Some? && noSubtitles {
            toSubtitles := true;
          }
        } else if o.subLang.Some? {
          if lang in o.subLang.value {
            toSubtitles := true;
          }
        }
      }
    }
  }

  /**
   * The loop of `create_command`: the ids and parameters kept per category,
   * and the mkvextract command with one target per routed subtitle track.
   */
  method SelectTracks(file: string, root: string, table: seq<Entry<TrackInfo>>, o: UserOptions)
    returns (procdV: seq<string>, optionsV: seq<string>, procdA: seq<string>, optionsA: seq<string>,
             procdS: seq<string>, optionsS: seq<string>, mkvextractCmd: seq<Option<string>>)
    requires o.outPath.Some?
    requires KnownKinds(table)
    ensures procdV == Keys(KeptVideo(table)) && optionsV == Params(KeptVideo(table), o)
    ensures procdA == Keys(KeptAudio(table, o)) && optionsA == Params(KeptAudio(table, o), o)
    ensures procdS == Keys(KeptSubtitles(table, o)) && optionsS == Params(KeptSubtitles(table, o), o)
    ensures mkvextractCmd == ExtractCommandOf(file, root, table, o)
  {
    procdV, optionsV, procdA, optionsA, procdS, optionsS := [], [], [], [], [], [];
    mkvextractCmd := [Some("mkvextract tracks \"" + PathJoin(root, file) + "\" ")];
    for i := 0 to |table|
      invariant procdV == Keys(KeptVideo(table[..i])) && optionsV == Params(KeptVideo(table[..i]), o)
      invariant procdA == Keys(KeptAudio(table[..i], o)) && optionsA == Params(KeptAudio(table[..i], o), o)
      invariant procdS == Keys(KeptSubtitles(table[..i], o)) && optionsS == Params(KeptSubtitles(table[..i], o), o)
      invariant mkvextractCmd == ExtractCommandOf(file, root, table[..i], o)
    {
      var track := table[i].key;
      var t := table[i].value;
      var param := AddParam(track, t.language, IsDef(t.defaultTrack), t.trackName, o);
      var toVideo, toAudio, toSubtitles, toExtract := Route(table[i], |procdV| == 0, |procdA| == 0, |procdS| == 0, o);
      KeptStep(table, i, VideoRule, o);
      KeptStep(table, i, AudioRule(o), o);
      KeptStep(table, i, SubtitleRule(o), o);
      ExtractStep(file, root, table, i, o);
      if toVideo {
        optionsV := optionsV + [param];
        procdV := procdV + [track];
      }
      assert procdV == Keys(KeptVideo(table[..i + 1])) && optionsV == Params(KeptVideo(table[..i + 1]), o);
      if toAudio {
        optionsA := optionsA + [param];
        procdA := procdA + [track];
      }
      assert procdA == Keys(KeptAudio(table[..i + 1], o)) && optionsA == Params(KeptAudio(table[..i + 1], o), o);
      if toSubtitles {
        optionsS := optionsS + [param];
        procdS := procdS + [track];
      }
      assert procdS == Keys(KeptSubtitles(table[..i + 1], o)) && optionsS == Params(KeptSubtitles(table[..i + 1], o), o);
      if toExtract {
        mkvextractCmd := mkvextractCmd + [CreateSubCmd(file, track, t, o)];
      }
    }
    assert table[..|table|] == table;
  }

  /**
   * A subtitle track with a codec outside the extension table still counts:
   * its target is `None`, and the decision to invoke `call_program` for
   * mkvextract holds all the same.
   */
  lemma UnknownCodecStillCounts(file: string, root: string, sub: Entry<TrackInfo>, o: UserOptions)
    requires o.outPath.Some? && ExtractAllSub in o.flags
    requires sub.value.kind == Subtitles && sub.value.codecId !in CodecExtensions
    ensures ExtractCommandOf(file, root, [sub], o) == [Some(ExtractPrefix(file, root)), None]
    ensures CallsExtract(o, ExtractCommandOf(file, root, [sub], o))
  {
    assert ExtractRule(o) == Keep(OfKind(Subtitles), false);
    SelectSnoc([], sub, OfKind(Subtitles));
    assert [] + [sub] == [sub];
    assert ExtractedSubtitles([sub], o) == [sub];
    ExtractTargetsSnoc(file, [], sub, o);
    assert CreateSubCmd(file, sub.key, sub.value, o) == None;
    assert ExtractTargets(file, [sub], o) == [None];
  }

  /** `create_command`: the selection loop, then the assembly of both commands. */
  method CreateCommand(file: string, root: string, info: FileInfo, o: UserOptions) returns (inv: Invocation)
    requires o.outPath.Some?
    requires KnownKinds(info.tracks)
    ensures inv == Commands(file, root, info, o)
  {
    var mkvmergeCmd := ["mkvmerge"];
    if o.passAlong.Some? {
      mkvmergeCmd := mkvmergeCmd + [o.passAlong.value];
    }
    ghost var lead := mkvmergeCmd;
    assert lead == ["mkvmerge"] + (if o.passAlong.Some? then [o.passAlong.value] else []);
    var outputFlag;
    if NewFolder in o.flags {
      outputFlag := "-o \"" + PathJoin(PathJoin(o.outPath.value, Stem(file)), file) + "\"";
    } else {
      outputFlag := "-o \"" + PathJoin(o.outPath.value, file) + "\"";
    }
    assert outputFlag == OutputFlag(file, o);
    mkvmergeCmd := mkvmergeCmd + [outputFlag];

    var procdV, optionsV, procdA, optionsA, procdS, optionsS, mkvextractCmd := SelectTracks(file, root, info.tracks, o);

    var videoFlag := if |procdV| > 0 then "--video-tracks " + Join(",", procdV) + " " + Join(" ", optionsV)
                     else "--no-video";
    var audioFlag := if |procdA| > 0 then "--audio-tracks " + Join(",", procdA) + " " + Join(" ", optionsA)
                     else "--no-audio";
    var subtitleFlag := if |procdS| > 0 then "--subtitle-tracks " + Join(",", procdS) + " " + Join(" ", optionsS)
                        else "--no-subtitles";
    FlagOfSelection("--video-tracks ", "--no-video", procdV, optionsV, KeptVideo(info.tracks), o);
    FlagOfSelection("--audio-tracks ", "--no-audio", procdA, optionsA, KeptAudio(info.tracks, o), o);
    FlagOfSelection("--subtitle-tracks ", "--no-subtitles", procdS, optionsS, KeptSubtitles(info.tracks, o), o);
    mkvmergeCmd := mkvmergeCmd + [videoFlag, audioFlag, subtitleFlag];

    var infileOptions := ProcessOptions(info.title, info.attachments, o);
    var input := "\"" + PathJoin(root, file) + "\"";
    mkvmergeCmd := mkvmergeCmd + [infileOptions, input];
    MergeCommandOf(file, root, info, o, lead, outputFlag, videoFlag, audioFlag, subtitleFlag, infileOptions, input);

    var callExtract := (o.extractSub.Some? && |mkvextractCmd| > 1) || (ExtractAllSub in o.flags && |mkvextractCmd| > 1);
    assert callExtract == CallsExtract(o, mkvextractCmd);
    inv := Invocation(mkvmergeCmd, mkvextractCmd, callExtract);
    CommandsOf(file, root, info, o, mkvmergeCmd, mkvextractCmd);
  }

  /** The two lists and the mkvextract decision make up `Commands`. */
  lemma CommandsOf(file: string, root: string, info: FileInfo, o: UserOptions,
                   merge: seq<string>, extract: seq<Option<string>>)
    requires o.outPath.Some?
    ensures merge == MergeCommand(file, root, info, o) && extract == ExtractCommandOf(file, root, info.tracks, o) ==>
      Invocation(merge, extract, CallsExtract(o, extract)) == Commands(file, root, info, o)
  {
  }

  /** The flag `create_command` appends for a category is `TrackFlag` of what the category kept. */
  lemma FlagOfSelection(tracksFlag: string, noFlag: string, procd: seq<string>, options: seq<string>,
                        kept: seq<Entry<TrackInfo>>, o: UserOptions)
    requires procd == Keys(kept) && options == Params(kept, o)
    ensures (if |procd| > 0 then tracksFlag + Join(",", procd) + " " + Join(" ", options) else noFlag) ==
      TrackFlag(tracksFlag, noFlag, kept, o)
  {
  }

  /** The appends of `create_command`, piece by piece, build `MergeCommand`. */
  lemma MergeCommandOf(file: string, root: string, info: FileInfo, o: UserOptions, lead: seq<string>,
                       output: string, video: string, audio: string, subtitles: string, infile: string, input: string)
    requires o.outPath.Some?
    ensures (lead == ["mkvmerge"] + (if o.passAlong.Some? then [o.passAlong.value] else []) &&
             output == OutputFlag(file, o) &&
             video == TrackFlag("--video-tracks ", "--no-video", KeptVideo(info.tracks), o) &&
             audio == TrackFlag("--audio-tracks ", "--no-audio", KeptAudio(info.tracks, o), o) &&
             subtitles == TrackFlag("--subtitle-tracks ", "--no-subtitles", KeptSubtitles(info.tracks, o), o) &&
             infile == Join(" ", InfileOptions(info.title, info.attachments, o)) &&
             input == "\"" + PathJoin(root, file) + "\"") ==>
      lead + [output] + [video, audio, subtitles] + [infile, input] == MergeCommand(file, root, info, o)
  {
    Regroup(lead, output, video, audio, subtitles, infile, input);
  }

  /** Appending one, three and two elements is appending the six at once. */
  lemma Regroup<T>(lead: seq<T>, a: T, b: T, c: T, d: T, e: T, f: T)
    ensures lead + [a] + [b, c, d] + [e, f] == lead + [a, b, c, d, e, f]
  {
  }

  /** Whether a rule takes one more entry, given whether it has taken any yet. */
  predicate Takes(r: Rule, e: Entry<TrackInfo>, noneYet: bool) {
    r.Keep? && Matches(e, r.c) && (!r.firstOnly || noneYet)
  }

  /** One pass of the selection loop for one category: its ids and parameters grow by the entry it takes. */
  lemma KeptStep(table: seq<Entry<TrackInfo>>, i: nat, r: Rule, o: UserOptions)
    requires i < |table|
    ensures var es, e := table[..i], table[i];
      var taken := Takes(r, e, |Keys(Apply(es, r))| == 0);
      && Keys(Apply(table[..i + 1], r)) == Keys(Apply(es, r)) + (if taken then [e.key] else [])
      && Params(Apply(table[..i + 1], r), o) == Params(Apply(es, r), o) + (if taken then [Param(e, o)] else [])
  {
    var es, e := table[..i], table[i];
    assert table[..i + 1] == es + [e];
    var kept := Apply(es, r);
    ApplySnoc(es, e, r);
    assert (kept + [e])[..|kept|] == kept;
  }

  /** One pass of the selection loop for extraction: the command grows by the target of the entry routed to it. */
  lemma ExtractStep(file: string, root: string, table: seq<Entry<TrackInfo>>, i: nat, o: UserOptions)
    requires o.outPath.Some? && i < |table|
    ensures var es, e := table[..i], table[i];
      ExtractCommandOf(file, root, table[..i + 1], o) ==
      ExtractCommandOf(file, root, es, o) + (if Takes(ExtractRule(o), e, true) then [CreateSubCmd(file, e.key, e.value, o)] else [])
  {
    assert table[..i + 1] == table[..i] + [table[i]];
    ExtractSnoc(file, root, table[..i], table[i], o);
  }

  /** One more table entry adds at most its own target to the mkvextract command. */
  lemma ExtractSnoc(file: string, root: string, es: seq<Entry<TrackInfo>>, e: Entry<TrackInfo>, o: UserOptions)
    requires o.outPath.Some?
    ensures ExtractCommandOf(file, root, es + [e], o) ==
      ExtractCommandOf(file, root, es, o) + (if Takes(ExtractRule(o), e, true) then [CreateSubCmd(file, e.key, e.value, o)] else [])
  {
    ApplySnoc(es, e, ExtractRule(o));
    var x := ExtractedSubtitles(es, o);
    if Takes(ExtractRule(o), e, true) {
      assert ExtractedSubtitles(es + [e], o) == x + [e];
      ExtractTargetsSnoc(file, x, e, o);
      var c := CreateSubCmd(file, e.key, e.value, o);
      var p := [Some(ExtractPrefix(file, root))];
      assert p + (ExtractTargets(file, x, o) + [c]) == p + ExtractTargets(file, x, o) + [c];
    } else {
      assert ExtractedSubtitles(es + [e], o) == x;
    }
  }

}
