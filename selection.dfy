/**
 * Which tracks of the track table stay in the remux and which subtitle
 * tracks go to extraction: the decision ladder of `create_command`, written
 * as one rule per category.
 */
module Selection {
  import opened Wrappers
  import opened Tables
  import opened Options
  import opened Inspector

  const Video := "video"
  const Audio := "audio"
  const Subtitles := "subtitles"

  /** The ladder ends only for these three kinds; for any other it loops forever. */
  predicate KnownKinds(es: seq<Entry<TrackInfo>>) {
    forall i :: 0 <= i < |es| ==> es[i].value.kind in {Video, Audio, Subtitles}
  }

  /** A condition on a track: its kind, and maybe a language allow-list. */
  datatype Criterion = OfKind(kind: string) | OfKindIn(kind: string, langs: seq<string>)

  predicate Matches(e: Entry<TrackInfo>, c: Criterion) {
    e.value.kind == c.kind && (c.OfKindIn? ==> e.value.language in c.langs)
  }

  /** The positions of the entries that meet a criterion, in increasing order. */
  function MatchingIndices(es: seq<Entry<TrackInfo>>, c: Criterion): (ix: seq<nat>)
    ensures forall k :: 0 <= k < |ix| ==> ix[k] < |es| && Matches(es[ix[k]], c)
    ensures forall k, l :: 0 <= k < l < |ix| ==> ix[k] < ix[l]
    ensures forall i :: 0 <= i < |es| && Matches(es[i], c) ==> i in ix
    decreases |es|
  {
    if |es| == 0 then []
    else
      var init := MatchingIndices(es[..|es| - 1], c);
      if Matches(es[|es| - 1], c) then init + [|es| - 1] else init
  }

  /** The entries at the given positions, in the order given. */
  function Restrict(es: seq<Entry<TrackInfo>>, ix: seq<nat>): seq<Entry<TrackInfo>>
    requires forall k :: 0 <= k < |ix| ==> ix[k] < |es|
  {
    seq(|ix|, k requires 0 <= k < |ix| => es[ix[k]])
  }

  /** The entries that meet a criterion, in table order. */
  function Select(es: seq<Entry<TrackInfo>>, c: Criterion): seq<Entry<TrackInfo>>
    decreases |es|
  {
    if |es| == 0 then []
    else Select(es[..|es| - 1], c) + (if Matches(es[|es| - 1], c) then [es[|es| - 1]] else [])
  }

  /** The first element, if there is one. */
  function First<T>(s: seq<T>): seq<T> {
    if |s| == 0 then [] else [s[0]]
  }

  /** A row of the decision table: keep nothing, or the tracks meeting a criterion (maybe only the first). */
  datatype Rule = DropAll | Keep(c: Criterion, firstOnly: bool)

  function Apply(es: seq<Entry<TrackInfo>>, r: Rule): seq<Entry<TrackInfo>> {
    match r
    case DropAll => []
    case Keep(c, firstOnly) => if firstOnly then First(Select(es, c)) else Select(es, c)
  }

  /** Video: the first video track, whatever the options. */
  const VideoRule := Keep(OfKind(Video), true)

  /** Audio: the first track without `audio_lang`; the listed languages with it, only the first of them under `no_dupe`. */
  function AudioRule(o: UserOptions): Rule {
    match o.audioLang
    case None => Keep(OfKind(Audio), true)
    case Some(langs) => Keep(OfKindIn(Audio, langs), NoDupe in o.flags)
  }

  /** Whether subtitles are sent to mkvextract instead of the remux. */
  predicate Extracting(o: UserOptions) {
    ExtractAllSub in o.flags || o.extractSub.Some?
  }

  /** Subtitles kept in the remux. Under `no_dupe` with `sub_lang` the first subtitle is kept whatever its language. */
  function SubtitleRule(o: UserOptions): Rule {
    if Extracting(o) then DropAll
    else if KeepSub in o.flags then Keep(OfKind(Subtitles), false)
    else
      match o.subLang
      case None => DropAll
      case Some(langs) =>
        if NoDupe in o.flags then Keep(OfKind(Subtitles), true) else Keep(OfKindIn(Subtitles, langs), false)
  }

  /** Subtitles sent to extraction: all of them with `extract_all_sub`, else those in `extract_sub`. */
  function ExtractRule(o: UserOptions): Rule {
    if ExtractAllSub in o.flags then Keep(OfKind(Subtitles), false)
    else
      match o.extractSub
      case None => DropAll
      case Some(langs) => Keep(OfKindIn(Subtitles, langs), false)
  }

  function KeptVideo(es: seq<Entry<TrackInfo>>): seq<Entry<TrackInfo>> {
    Apply(es, VideoRule)
  }

  function KeptAudio(es: seq<Entry<TrackInfo>>, o: UserOptions): seq<Entry<TrackInfo>> {
    Apply(es, AudioRule(o))
  }

  function KeptSubtitles(es: seq<Entry<TrackInfo>>, o: UserOptions): seq<Entry<TrackInfo>> {
    Apply(es, SubtitleRule(o))
  }

  function ExtractedSubtitles(es: seq<Entry<TrackInfo>>, o: UserOptions): seq<Entry<TrackInfo>> {
    Apply(es, ExtractRule(o))
  }

  /** One more table entry: a rule takes it exactly when it matches and, for a first-only rule, nothing was taken yet. */
  lemma {:induction false} ApplySnoc(es: seq<Entry<TrackInfo>>, e: Entry<TrackInfo>, r: Rule)
    ensures Apply(es + [e], r) ==
      Apply(es, r) + (if r.Keep? && Matches(e, r.c) && (!r.firstOnly || Apply(es, r) == []) then [e] else [])
  {
    assert (es + [e])[..|es|] == es;
    if r.Keep? && r.firstOnly && Select(es, r.c) != [] {
      assert (Select(es, r.c) + [e])[0] == Select(es, r.c)[0];
    }
  }

  /** The entries a criterion selects are exactly those at its matching positions, in table order. */
  lemma {:induction false} SelectIsRestriction(es: seq<Entry<TrackInfo>>, c: Criterion)
    ensures Select(es, c) == Restrict(es, MatchingIndices(es, c))
    decreases |es|
  {
    if |es| > 0 {
      var init := es[..|es| - 1];
      SelectIsRestriction(init, c);
      var ix := MatchingIndices(init, c);
      RestrictPrefix(init, es, ix);
      if Matches(es[|es| - 1], c) {
        RestrictSnoc(es, ix, |es| - 1);
      }
    }
  }

  /** Restricting a longer table to positions of its prefix picks the same entries. */
  lemma RestrictPrefix(init: seq<Entry<TrackInfo>>, es: seq<Entry<TrackInfo>>, ix: seq<nat>)
    requires |init| <= |es| && init == es[..|init|]
    requires forall k :: 0 <= k < |ix| ==> ix[k] < |init|
    ensures Restrict(init, ix) == Restrict(es, ix)
  {
  }

  /** One more position picks one more entry. */
  lemma RestrictSnoc(es: seq<Entry<TrackInfo>>, ix: seq<nat>, j: nat)
    requires forall k :: 0 <= k < |ix| ==> ix[k] < |es|
    requires j < |es|
    ensures Restrict(es, ix + [j]) == Restrict(es, ix) + [es[j]]
  {
  }

  /** The first matching position is the least position that matches. */
  lemma EarliestMatch(es: seq<Entry<TrackInfo>>, c: Criterion, i: nat)
    requires i < |es| && Matches(es[i], c)
    ensures MatchingIndices(es, c) != [] && MatchingIndices(es, c)[0] <= i
  {
    var ix := MatchingIndices(es, c);
    var k :| 0 <= k < |ix| && ix[k] == i;
    assert k == 0 || ix[0] < ix[k];
  }

  /** The earliest entry that meets a criterion, if any does. */
  function Earliest(es: seq<Entry<TrackInfo>>, c: Criterion): seq<Entry<TrackInfo>> {
    var ix := MatchingIndices(es, c);
    if |ix| == 0 then [] else [es[ix[0]]]
  }

  /** A first-only rule keeps the earliest match, and keeps nothing only when nothing matches. */
  lemma FirstOnlyIsEarliest(es: seq<Entry<TrackInfo>>, c: Criterion)
    ensures First(Select(es, c)) == Earliest(es, c)
    ensures First(Select(es, c)) == [] <==> forall i :: 0 <= i < |es| ==> !Matches(es[i], c)
    ensures forall i :: 0 <= i < |es| && Matches(es[i], c) && (forall j :: 0 <= j < i ==> !Matches(es[j], c)) ==>
      First(Select(es, c)) == [es[i]]
  {
    SelectIsRestriction(es, c);
    forall i | 0 <= i < |es| && Matches(es[i], c)
      ensures MatchingIndices(es, c) != [] && MatchingIndices(es, c)[0] <= i
    {
      EarliestMatch(es, c, i);
    }
  }

  /** At most one video track is kept: the first video entry in table order, whatever the options. */
  lemma VideoSelection(es: seq<Entry<TrackInfo>>)
    ensures |KeptVideo(es)| <= 1
    ensures KeptVideo(es) == [] <==> forall i :: 0 <= i < |es| ==> es[i].value.kind != Video
    ensures forall i :: 0 <= i < |es| && es[i].value.kind == Video && (forall j :: 0 <= j < i ==> es[j].value.kind != Video) ==>
      KeptVideo(es) == [es[i]]
  {
    FirstOnlyIsEarliest(es, OfKind(Video));
  }

  /**
   * Audio: without `audio_lang` only the first audio track is kept; with
   * `audio_lang` and `no_dupe` only the first listed-language audio track;
   * with `audio_lang` alone exactly the listed-language audio tracks, in
   * table order.
   */
  lemma AudioSelection(es: seq<Entry<TrackInfo>>, o: UserOptions)
    ensures o.audioLang.None? ==> KeptAudio(es, o) == Earliest(es, OfKind(Audio))
    ensures o.audioLang.Some? && NoDupe in o.flags ==>
      KeptAudio(es, o) == Earliest(es, OfKindIn(Audio, o.audioLang.value))
    ensures o.audioLang.Some? && NoDupe !in o.flags ==>
      KeptAudio(es, o) == Restrict(es, MatchingIndices(es, OfKindIn(Audio, o.audioLang.value)))
  {
    if o.audioLang.None? {
      assert AudioRule(o) == Keep(OfKind(Audio), true);
      FirstOnlyIsEarliest(es, OfKind(Audio));
      assert KeptAudio(es, o) == Earliest(es, OfKind(Audio));
    } else if NoDupe in o.flags {
      var c := OfKindIn(Audio, o.audioLang.value);
      assert AudioRule(o) == Keep(c, true);
      FirstOnlyIsEarliest(es, c);
      assert KeptAudio(es, o) == Earliest(es, c);
    } else {
      var c := OfKindIn(Audio, o.audioLang.value);
      assert AudioRule(o) == Keep(c, false);
      SelectIsRestriction(es, c);
      assert KeptAudio(es, o) == Restrict(es, MatchingIndices(es, c));
    }
  }

  /**
   * Subtitles with no extraction option: `keep_sub` keeps all of them;
   * without `sub_lang` none; with `sub_lang` and `no_dupe` the first
   * subtitle whatever its language; with `sub_lang` alone exactly the
   * listed-language subtitles, in table order.
   */
  lemma SubtitleSelection(es: seq<Entry<TrackInfo>>, o: UserOptions)
    requires !Extracting(o)
    ensures KeepSub in o.flags ==> KeptSubtitles(es, o) == Restrict(es, MatchingIndices(es, OfKind(Subtitles)))
    ensures KeepSub !in o.flags && o.subLang.None? ==> KeptSubtitles(es, o) == []
    ensures KeepSub !in o.flags && o.subLang.Some? && NoDupe in o.flags ==>
      KeptSubtitles(es, o) == Earliest(es, OfKind(Subtitles))
    ensures KeepSub !in o.flags && o.subLang.Some? && NoDupe !in o.flags ==>
      KeptSubtitles(es, o) == Restrict(es, MatchingIndices(es, OfKindIn(Subtitles, o.subLang.value)))
  {
    if KeepSub in o.flags {
      assert SubtitleRule(o) == Keep(OfKind(Subtitles), false);
      SelectIsRestriction(es, OfKind(Subtitles));
      assert KeptSubtitles(es, o) == Restrict(es, MatchingIndices(es, OfKind(Subtitles)));
    } else if o.subLang.None? {
      assert SubtitleRule(o) == DropAll;
    } else if NoDupe in o.flags {
      assert SubtitleRule(o) == Keep(OfKind(Subtitles), true);
      FirstOnlyIsEarliest(es, OfKind(Subtitles));
      assert KeptSubtitles(es, o) == Earliest(es, OfKind(Subtitles));
    } else {
      var c := OfKindIn(Subtitles, o.subLang.value);
      assert SubtitleRule(o) == Keep(c, false);
      SelectIsRestriction(es, c);
      assert KeptSubtitles(es, o) == Restrict(es, MatchingIndices(es, c));
    }
  }

  /**
   * Extraction excludes retention: with an extraction option no subtitle is
   * kept; `extract_all_sub` routes every subtitle to extraction,
   * `extract_sub` the listed languages; no track is both kept and extracted.
   */
  lemma ExtractionSelection(es: seq<Entry<TrackInfo>>, o: UserOptions)
    ensures Extracting(o) ==> KeptSubtitles(es, o) == []
    ensures !Extracting(o) ==> ExtractedSubtitles(es, o) == []
    ensures ExtractAllSub in o.flags ==>
      ExtractedSubtitles(es, o) == Restrict(es, MatchingIndices(es, OfKind(Subtitles)))
    ensures ExtractAllSub !in o.flags && o.extractSub.Some? ==>
      ExtractedSubtitles(es, o) == Restrict(es, MatchingIndices(es, OfKindIn(Subtitles, o.extractSub.value)))
    ensures forall k :: !(k in Keys(KeptSubtitles(es, o)) && k in Keys(ExtractedSubtitles(es, o)))
  {
    SelectIsRestriction(es, OfKind(Subtitles));
    if o.extractSub.Some? {
      SelectIsRestriction(es, OfKindIn(Subtitles, o.extractSub.value));
    }
  }

  /** Every track a rule keeps is a table entry that meets the rule's criterion. */
  lemma {:induction false} ApplyWithin(es: seq<Entry<TrackInfo>>, r: Rule)
    ensures forall e :: e in Apply(es, r) ==> e in es && r.Keep? && Matches(e, r.c)
  {
    if r.Keep? {
      SelectIsRestriction(es, r.c);
    }
  }

  /** Two audio tracks, Japanese first; `-a jpn -s eng` keeps video 0, audio 1 and subtitle 3. */
  lemma LanguageScenario(v: TrackInfo, jpn: TrackInfo, eng: TrackInfo, sub: TrackInfo, o: UserOptions)
    requires v.kind == Video
    requires jpn.kind == Audio && jpn.language == "jpn" && jpn.defaultTrack
    requires eng.kind == Audio && eng.language == "eng"
    requires sub.kind == Subtitles && sub.language == "eng"
    requires o == NoOptions.(audioLang := Some(["jpn"]), subLang := Some(["eng"]))
    ensures var table := [Entry("0", v), Entry("1", jpn), Entry("2", eng), Entry("3", sub)];
      && Keys(KeptVideo(table)) == ["0"]
      && Keys(KeptAudio(table, o)) == ["1"]
      && Keys(KeptSubtitles(table, o)) == ["3"]
      && ExtractedSubtitles(table, o) == []
  {
    var table := [Entry("0", v), Entry("1", jpn), Entry("2", eng), Entry("3", sub)];
    assert "eng" != "jpn" by {
      assert "eng"[0] != "jpn"[0];
    }
    assert Video != Audio && Video != Subtitles && Audio != Subtitles by {
      assert Video[0] != Audio[0] && Video[0] != Subtitles[0] && Audio[0] != Subtitles[0];
    }
    assert AudioRule(o) == Keep(OfKindIn(Audio, ["jpn"]), false);
    assert SubtitleRule(o) == Keep(OfKindIn(Subtitles, ["eng"]), false);
    assert ExtractRule(o) == DropAll;
    SelectFour(table, OfKind(Video));
    SelectFour(table, OfKindIn(Audio, ["jpn"]));
    SelectFour(table, OfKindIn(Subtitles, ["eng"]));
  }

  /** One more entry joins a selection exactly when it meets the criterion. */
  lemma SelectSnoc(es: seq<Entry<TrackInfo>>, e: Entry<TrackInfo>, c: Criterion)
    ensures Select(es + [e], c) == Select(es, c) + (if Matches(e, c) then [e] else [])
  {
    assert (es + [e])[..|es|] == es;
  }

  /** The selection from a four-entry table, entry by entry. */
  lemma SelectFour(t: seq<Entry<TrackInfo>>, c: Criterion)
    requires |t| == 4
    ensures Select(t, c) ==
      (if Matches(t[0], c) then [t[0]] else []) + (if Matches(t[1], c) then [t[1]] else []) +
      (if Matches(t[2], c) then [t[2]] else []) + (if Matches(t[3], c) then [t[3]] else [])
  {
    SelectSnoc([], t[0], c);
    SelectSnoc([t[0]], t[1], c);
    SelectSnoc([t[0], t[1]], t[2], c);
    SelectSnoc([t[0], t[1], t[2]], t[3], c);
    assert [] + [t[0]] == [t[0]] && [t[0]] + [t[1]] == [t[0], t[1]];
    assert [t[0], t[1]] + [t[2]] == [t[0], t[1], t[2]] && [t[0], t[1], t[2]] + [t[3]] == t;
  }

  /**
   * `--no-dupe -s eng` over subtitles 3 (jpn) and 4 (eng) keeps only 3:
   * under `no_dupe` the first subtitle is kept even though its language
   * is not listed.
   */
  lemma NoDupeSubtitleScenario(jpn: TrackInfo, eng: TrackInfo, o: UserOptions)
    requires jpn.kind == Subtitles && jpn.language == "jpn"
    requires eng.kind == Subtitles && eng.language == "eng"
    requires o == NoOptions.(subLang := Some(["eng"]), flags := {NoDupe})
    ensures Keys(KeptSubtitles([Entry("3", jpn), Entry("4", eng)], o)) == ["3"]
    ensures jpn.language !in o.subLang.value
  {
    var t1 := [Entry("3", jpn)];
    var t2 := t1 + [Entry("4", eng)];
    assert t1[..0] == [] && t2[..1] == t1;
    assert Select(t1, OfKind(Subtitles)) == t1;
    assert Select(t2, OfKind(Subtitles)) == t2;
    assert t2 == [Entry("3", jpn), Entry("4", eng)];
    assert "jpn"[0] != "eng"[0];
  }
}
