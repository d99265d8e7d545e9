/**
 * `process_stdout`: the identify report of `mkvmerge -i -F json`, already
 * parsed, turned into the track table, the attachment table, the two
 * presence flags and the container title.
 */
module Inspector {
  import opened Wrappers
  import opened Text
  import opened Tables

  /** One element of the report's `tracks` list. */
  datatype TrackReport = TrackReport(
    id: nat,
    kind: string,                // "video", "audio", "subtitles", ...
    codecId: string,
    defaultTrack: bool,
    language: string,
    trackName: Option<string>)   // `properties.track_name` may be absent

  /** One element of the report's `attachments` list. */
  datatype AttachmentReport = AttachmentReport(id: nat, contentType: string, fileName: string)

  /** The parsed report: `chapters` counts the entries of its chapter list. */
  datatype IdentifyReport = IdentifyReport(
    tracks: seq<TrackReport>,
    attachments: seq<AttachmentReport>,
    chapters: nat,
    title: Option<string>)       // `container.properties.title` may be absent

  /** A value of the track table. */
  datatype TrackInfo = TrackInfo(kind: string, codecId: string, defaultTrack: bool, language: string, trackName: string)

  /** A value of the attachment table. */
  datatype AttachmentInfo = AttachmentInfo(contentType: string, name: string)

  /** The five-element list `process_stdout` returns. */
  datatype FileInfo = FileInfo(
    tracks: seq<Entry<TrackInfo>>,
    hasAtt: bool,
    attachments: seq<Entry<AttachmentInfo>>,
    hasChapt: bool,
    title: string)

  /** A track's table value; a missing name becomes the empty string. */
  function InfoOf(t: TrackReport): TrackInfo {
    TrackInfo(t.kind, t.codecId, t.defaultTrack, t.language, t.trackName.GetOr(""))
  }

  /** Stores `v` under every character of `chars`, one one-character key each, in order. */
  function PutEach<V>(t: seq<Entry<V>>, chars: string, v: V): seq<Entry<V>>
    decreases |chars|
  {
    if |chars| == 0 then t
    else Put(PutEach(t, chars[..|chars| - 1], v), [chars[|chars| - 1]], v)
  }

  /** The track table: every track stored under each character of `str(id)`. */
  function TrackTable(ts: seq<TrackReport>): seq<Entry<TrackInfo>>
    decreases |ts|
  {
    if |ts| == 0 then []
    else
      var t := ts[|ts| - 1];
      PutEach(TrackTable(ts[..|ts| - 1]), NatToString(t.id), InfoOf(t))
  }

  /** The attachment table: every attachment stored under the whole of `str(id)`. */
  function AttachmentTable(atts: seq<AttachmentReport>): seq<Entry<AttachmentInfo>>
    decreases |atts|
  {
    if |atts| == 0 then []
    else
      var a := atts[|atts| - 1];
      Put(AttachmentTable(atts[..|atts| - 1]), NatToString(a.id), AttachmentInfo(a.contentType, a.fileName))
  }

  /** What `process_stdout` returns for a report. */
  function FileInfoOf(r: IdentifyReport): FileInfo {
    FileInfo(
      TrackTable(r.tracks),
      |r.attachments| > 0,
      AttachmentTable(r.attachments),
      r.chapters > 0,
      r.title.GetOr(""))
  }

  /** `process_stdout`, with its loops over tracks, id characters and attachments. */
  method ProcessStdout(report: IdentifyReport) returns (info: FileInfo)
    ensures info == FileInfoOf(report)
  {
    var trackDict: seq<Entry<TrackInfo>> := [];
    var attDict: seq<Entry<AttachmentInfo>> := [];
    var hasAtt, hasChapt := false, false;

    for i := 0 to |report.tracks|
      invariant trackDict == TrackTable(report.tracks[..i])
    {
      var t := report.tracks[i];
      var digits := NatToString(t.id);
      var name := if t.trackName.Some? then t.trackName.value else "";
      ghost var before := trackDict;
      for j := 0 to |digits|
        invariant trackDict == PutEach(before, digits[..j], InfoOf(t))
      {
        trackDict := Put(trackDict, [digits[j]], TrackInfo(t.kind, t.codecId, t.defaultTrack, t.language, name));
        assert digits[..j + 1][..j] == digits[..j];
      }
      assert digits[..|digits|] == digits;
      assert report.tracks[..i + 1][..i] == report.tracks[..i];
    }
    assert report.tracks[..|report.tracks|] == report.tracks;

    if |report.attachments| > 0 {
      hasAtt := true;
      for i := 0 to |report.attachments|
        invariant attDict == AttachmentTable(report.attachments[..i])
      {
        var a := report.attachments[i];
        attDict := Put(attDict, NatToString(a.id), AttachmentInfo(a.contentType, a.fileName));
        assert report.attachments[..i + 1][..i] == report.attachments[..i];
      }
      assert report.attachments[..|report.attachments|] == report.attachments;
    }
    if report.chapters > 0 {
      hasChapt := true;
    }

    var title := if report.title.Some? then report.title.value else "";
    info := FileInfo(trackDict, hasAtt, attDict, hasChapt, title);
  }

  lemma {:induction false} PutEachKeys<V>(t: seq<Entry<V>>, chars: string, v: V, k: string)
    ensures k in Keys(PutEach(t, chars, v)) <==> k in Keys(t) || (|k| == 1 && k[0] in chars)
    decreases |chars|
  {
    if |chars| > 0 {
      var init := chars[..|chars| - 1];
      var last := chars[|chars| - 1];
      PutEachKeys(t, init, v, k);
      PutKeys(PutEach(t, init, v), [last], v);
      assert chars == init + [last];
      if |k| == 1 {
        assert k == [k[0]];
      }
    }
  }

  lemma {:induction false} PutEachLookup<V>(t: seq<Entry<V>>, chars: string, v: V, c: char)
    ensures Lookup(PutEach(t, chars, v), [c]) == if c in chars then Some(v) else Lookup(t, [c])
    decreases |chars|
  {
    if |chars| > 0 {
      var init := chars[..|chars| - 1];
      var last := chars[|chars| - 1];
      PutEachLookup(t, init, v, c);
      PutLookup(PutEach(t, init, v), [last], v);
      assert chars == init + [last];
      if c != last {
        assert [c] != [last];
      }
    }
  }

  lemma {:induction false} PutEachUnique<V>(t: seq<Entry<V>>, chars: string, v: V)
    requires UniqueKeys(t)
    ensures UniqueKeys(PutEach(t, chars, v))
    decreases |chars|
  {
    if |chars| > 0 {
      PutEachUnique(t, chars[..|chars| - 1], v);
      PutUnique(PutEach(t, chars[..|chars| - 1], v), [chars[|chars| - 1]], v);
    }
  }

  /** A track table never holds a key twice. */
  lemma {:induction false} TrackTableUnique(ts: seq<TrackReport>)
    ensures UniqueKeys(TrackTable(ts))
    decreases |ts|
  {
    if |ts| > 0 {
      TrackTableUnique(ts[..|ts| - 1]);
      PutEachUnique(TrackTable(ts[..|ts| - 1]), NatToString(ts[|ts| - 1].id), InfoOf(ts[|ts| - 1]));
    }
  }

  /** The keys of the track table are the single characters of the track ids' decimal forms. */
  lemma {:induction false} TrackTableKeys(ts: seq<TrackReport>, k: string)
    ensures k in Keys(TrackTable(ts)) <==>
      |k| == 1 && exists i :: 0 <= i < |ts| && k[0] in NatToString(ts[i].id)
    decreases |ts|
  {
    if |ts| > 0 {
      var init := ts[..|ts| - 1];
      var last := ts[|ts| - 1];
      TrackTableKeys(init, k);
      PutEachKeys(TrackTable(init), NatToString(last.id), InfoOf(last), k);
      if |k| == 1 && exists i :: 0 <= i < |ts| && k[0] in NatToString(ts[i].id) {
        var i :| 0 <= i < |ts| && k[0] in NatToString(ts[i].id);
        if i < |init| {
          assert init[i] == ts[i];
        }
      }
      if |k| == 1 && exists i :: 0 <= i < |init| && k[0] in NatToString(init[i].id) {
        var i :| 0 <= i < |init| && k[0] in NatToString(init[i].id);
        assert init[i] == ts[i];
      }
    }
  }

  /** The last track whose decimal id holds the character `c`. */
  function LastWithDigit(ts: seq<TrackReport>, c: char): Option<TrackInfo>
    decreases |ts|
  {
    if |ts| == 0 then None
    else if c in NatToString(ts[|ts| - 1].id) then Some(InfoOf(ts[|ts| - 1]))
    else LastWithDigit(ts[..|ts| - 1], c)
  }

  /** Under a digit key stands the last track whose id holds that digit: later tracks overwrite. */
  lemma {:induction false} TrackTableLookup(ts: seq<TrackReport>, c: char)
    ensures Lookup(TrackTable(ts), [c]) == LastWithDigit(ts, c)
    decreases |ts|
  {
    if |ts| > 0 {
      TrackTableLookup(ts[..|ts| - 1], c);
      PutEachLookup(TrackTable(ts[..|ts| - 1]), NatToString(ts[|ts| - 1].id), InfoOf(ts[|ts| - 1]), c);
    }
  }

  /** The track table read as one entry per track, keyed by `str(id)`. */
  function OneEntryPerTrack(ts: seq<TrackReport>): seq<Entry<TrackInfo>> {
    seq(|ts|, i requires 0 <= i < |ts| => Entry(NatToString(ts[i].id), InfoOf(ts[i])))
  }

  /** With distinct ids below ten the track table is one entry per track, in report order. */
  lemma {:induction false} TrackTableSmallIds(ts: seq<TrackReport>)
    requires forall i :: 0 <= i < |ts| ==> ts[i].id < 10
    requires forall i, j :: 0 <= i < j < |ts| ==> ts[i].id != ts[j].id
    ensures TrackTable(ts) == OneEntryPerTrack(ts)
    decreases |ts|
  {
    if |ts| > 0 {
      var init := ts[..|ts| - 1];
      var t := ts[|ts| - 1];
      TrackTableSmallIds(init);
      var k := NatToString(t.id);
      NatToStringOneDigit(t.id);
      assert k == [k[0]];
      assert PutEach(TrackTable(init), k, InfoOf(t)) == Put(TrackTable(init), k, InfoOf(t)) by {
        assert k[..0] == [];
      }
      forall i | 0 <= i < |init| ensures Keys(TrackTable(init))[i] != k {
        NatToStringInjective(init[i].id, t.id);
      }
      PutAbsent(TrackTable(init), k, InfoOf(t));
    }
  }

  /** Track 12 lands under "1" and "2": the "1" of an earlier track 1 takes track 12's value, and keeps its place. */
  lemma TwoDigitIdExample(one: TrackReport, twelve: TrackReport)
    requires one.id == 1 && twelve.id == 12
    ensures TrackTable([one, twelve]) == [Entry("1", InfoOf(twelve)), Entry("2", InfoOf(twelve))]
  {
    var i1, i12 := InfoOf(one), InfoOf(twelve);
    assert NatToString(1) == "1";
    assert NatToString(12) == "12";
    assert [one, twelve][..1] == [one];
    assert [one][..0] == [];
    assert "1"[..0] == "";
    assert "12"[..1] == "1";
    assert TrackTable([one]) == [Entry("1", i1)];
    assert PutEach([Entry("1", i1)], "1", i12) == [Entry("1", i12)];
    calc {
      TrackTable([one, twelve]);
      PutEach([Entry("1", i1)], "12", i12);
      Put(PutEach([Entry("1", i1)], "1", i12), "2", i12);
      Put([Entry("1", i12)], "2", i12);
      [Entry("1", i12), Entry("2", i12)];
    }
  }

  /** The attachment table never holds a key twice. */
  lemma {:induction false} AttachmentTableUnique(atts: seq<AttachmentReport>)
    ensures UniqueKeys(AttachmentTable(atts))
    decreases |atts|
  {
    if |atts| > 0 {
      var a := atts[|atts| - 1];
      AttachmentTableUnique(atts[..|atts| - 1]);
      PutUnique(AttachmentTable(atts[..|atts| - 1]), NatToString(a.id), AttachmentInfo(a.contentType, a.fileName));
    }
  }

  /** With distinct attachment ids the table is one entry per attachment, keyed by `str(id)`, in report order. */
  lemma {:induction false} AttachmentTableDistinct(atts: seq<AttachmentReport>)
    requires forall i, j :: 0 <= i < j < |atts| ==> atts[i].id != atts[j].id
    ensures AttachmentTable(atts) ==
      seq(|atts|, i requires 0 <= i < |atts| => Entry(NatToString(atts[i].id), AttachmentInfo(atts[i].contentType, atts[i].fileName)))
    decreases |atts|
  {
    if |atts| > 0 {
      var init := atts[..|atts| - 1];
      var a := atts[|atts| - 1];
      AttachmentTableDistinct(init);
      forall i | 0 <= i < |init| ensures Keys(AttachmentTable(init))[i] != NatToString(a.id) {
        NatToStringInjective(init[i].id, a.id);
      }
      PutAbsent(AttachmentTable(init), NatToString(a.id), AttachmentInfo(a.contentType, a.fileName));
    }
  }
}
