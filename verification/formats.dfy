/** Format selection in the `POST /download` handler (server.js): from the
    provider's stream descriptors, one video rendition per quality tier and the
    best audio-only rendition, in the order the user sees them. */
module Formats {
  import opened Wrappers
  import opened Seqs
  import opened Text

  /** One rendition the provider offers. A missing `qualityLabel` (`null` or
      `undefined`) is `None`. */
  datatype Descriptor = Descriptor(
    itag: int,
    hasVideo: bool,
    hasAudio: bool,
    container: string,
    qualityLabel: Option<string>,
    bitrate: nat,
    audioBitrate: nat)

  datatype FormatKind = VideoKind | AudioKind

  /** An entry of the `formats` array sent to the client. */
  datatype SelectedFormat = SelectedFormat(
    itag: int,
    quality: string,
    container: string,
    hasVideo: bool,
    hasAudio: bool,
    kind: FormatKind)

  datatype Thumbnail = Thumbnail(url: string, width: nat)

  /** The quality tiers offered, best first. */
  const QualityOrder: seq<string> := ["2160p", "1440p", "1080p", "720p", "480p", "360p"]

  /** A video rendition eligible for a tier: mp4 with a whitelisted label. */
  predicate IsVideoCandidate(d: Descriptor)
  {
    && d.hasVideo
    && d.container == "mp4"
    && d.qualityLabel.Some? && d.qualityLabel.value != ""
    && d.qualityLabel.value in QualityOrder
  }

  predicate IsAudioOnly(d: Descriptor)
  {
    !d.hasVideo && d.hasAudio
  }

  predicate HasAudio(d: Descriptor)
  {
    d.hasAudio
  }

  predicate IsMp4WithAudio(d: Descriptor)
  {
    d.container == "mp4" && d.hasAudio
  }

  function Bitrate(d: Descriptor): int
  {
    d.bitrate
  }

  function AudioBitrate(d: Descriptor): int
  {
    d.audioBitrate
  }

  function Width(t: Thumbnail): int
  {
    t.width
  }

  function InTier(q: string): Descriptor -> bool
  {
    (d: Descriptor) => d.qualityLabel == Some(q)
  }

  /** A descriptor of the provider's list that competes for tier `q`. */
  function TierCandidate(q: string): Descriptor -> bool
  {
    And(IsVideoCandidate, InTier(q))
  }

  /** Position of a label in `QualityOrder`; 0 is the best tier. */
  function Rank(q: string): nat
  {
    Position(QualityOrder, q)
  }

  /** The tier a rendition's label belongs to (`|QualityOrder|` for none). */
  function TierRank(d: Descriptor): nat
  {
    if d.qualityLabel.Some? then Rank(d.qualityLabel.value) else |QualityOrder|
  }

  /** Renditions listed best tier first, no tier twice. */
  predicate StrictlyByTier(r: seq<Descriptor>)
  {
    forall i, j :: 0 <= i < j < |r| ==> TierRank(r[i]) < TierRank(r[j])
  }

  lemma StrictlyByTierCons(d: Descriptor, rest: seq<Descriptor>)
    requires StrictlyByTier(rest)
    requires forall i :: 0 <= i < |rest| ==> TierRank(d) < TierRank(rest[i])
    ensures StrictlyByTier([d] + rest)
  {
    var r := [d] + rest;
    forall i, j | 0 <= i < j < |r|
      ensures TierRank(r[i]) < TierRank(r[j])
    {
      assert r[j] == rest[j - 1];
      if i > 0 {
        assert r[i] == rest[i - 1];
      }
    }
  }

  lemma QualityOrderDistinct()
    ensures forall i, j :: 0 <= i < j < |QualityOrder| ==> QualityOrder[i] != QualityOrder[j]
  {
    assert QualityOrder[0][1] != QualityOrder[1][1] && QualityOrder[0][1] != QualityOrder[2][1];
    assert QualityOrder[1][1] != QualityOrder[2][1];
    assert QualityOrder[3][0] != QualityOrder[4][0] && QualityOrder[3][0] != QualityOrder[5][0];
    assert QualityOrder[4][0] != QualityOrder[5][0];
  }

  lemma RankOfTier(t: nat)
    requires t < |QualityOrder|
    ensures Rank(QualityOrder[t]) == t
  {
    QualityOrderDistinct();
  }

  /** `formatsByQuality[q]`: the mp4 candidates labelled `q`, in provider order. */
  function TierGroup(fs: seq<Descriptor>, q: string): (g: seq<Descriptor>)
    ensures forall i :: 0 <= i < |g| ==> IsVideoCandidate(g[i]) && g[i].qualityLabel == Some(q)
  {
    var g := Filter(Filter(fs, IsVideoCandidate), InTier(q));
    FilterFilter(fs, IsVideoCandidate, InTier(q));
    assert forall i :: 0 <= i < |g| ==> TierCandidate(q)(g[i]);
    g
  }

  /** Grouping the candidates by label is filtering the provider's list once. */
  lemma TierGroupIsFilter(fs: seq<Descriptor>, q: string)
    ensures TierGroup(fs, q) == Filter(fs, TierCandidate(q))
  {
    FilterFilter(fs, IsVideoCandidate, InTier(q));
  }

  /** The choice made within one tier: the first rendition that is mp4 with
      audio, else the first with audio, else the earliest of highest bitrate. */
  function PickIndex(group: seq<Descriptor>): (i: nat)
    requires |group| > 0
    ensures i < |group|
    ensures (exists j :: 0 <= j < |group| && IsMp4WithAudio(group[j])) ==>
              IsFirst(group, i, IsMp4WithAudio)
    ensures (forall j :: 0 <= j < |group| ==> !IsMp4WithAudio(group[j]))
            && (exists j :: 0 <= j < |group| && group[j].hasAudio) ==>
              IsFirst(group, i, HasAudio)
    ensures (forall j :: 0 <= j < |group| ==> !group[j].hasAudio) ==>
              IsEarliestMax(group, i, Any(), Bitrate)
  {
    match FirstIndex(group, IsMp4WithAudio)
    case Some(i) => i
    case None =>
      match FirstIndex(group, HasAudio)
      case Some(i) => i
      case None => ReduceMax(group, Bitrate)
  }

  /** The rendition shown for tier `q`. */
  function TierPick(fs: seq<Descriptor>, q: string): Descriptor
    requires TierGroup(fs, q) != []
  {
    var group := TierGroup(fs, q);
    group[PickIndex(group)]
  }

  /** The video renditions for the tiers from `k` on, best tier first. */
  function SelectTiers(fs: seq<Descriptor>, k: nat): (r: seq<Descriptor>)
    requires k <= |QualityOrder|
    ensures |r| <= |QualityOrder| - k
    ensures forall i :: 0 <= i < |r| ==> IsVideoCandidate(r[i]) && k <= TierRank(r[i]) < |QualityOrder|
    ensures StrictlyByTier(r)
    decreases |QualityOrder| - k
  {
    if k == |QualityOrder| then []
    else
      var group := TierGroup(fs, QualityOrder[k]);
      var rest := SelectTiers(fs, k + 1);
      if group != [] then
        var d := group[PickIndex(group)];
        TierPickCons(d, rest, k);
        [d] + rest
      else
        rest
  }

  /** Putting tier `k`'s pick in front of the later tiers keeps them ordered. */
  lemma TierPickCons(d: Descriptor, rest: seq<Descriptor>, k: nat)
    requires k < |QualityOrder| && IsVideoCandidate(d) && d.qualityLabel == Some(QualityOrder[k])
    requires StrictlyByTier(rest)
    requires forall i :: 0 <= i < |rest| ==> IsVideoCandidate(rest[i]) && k + 1 <= TierRank(rest[i]) < |QualityOrder|
    ensures forall i :: 0 <= i < |[d] + rest| ==> IsVideoCandidate(([d] + rest)[i]) && k <= TierRank(([d] + rest)[i]) < |QualityOrder|
    ensures StrictlyByTier([d] + rest)
  {
    RankOfTier(k);
    assert TierRank(d) == k;
    StrictlyByTierCons(d, rest);
    var r := [d] + rest;
    forall i | 0 <= i < |r|
      ensures IsVideoCandidate(r[i]) && k <= TierRank(r[i]) < |QualityOrder|
    {
      if i > 0 {
        assert r[i] == rest[i - 1];
      }
    }
  }

  /** One step of `SelectTiers`: tier `k` contributes its pick, or nothing. */
  lemma SelectTiersStep(fs: seq<Descriptor>, k: nat)
    requires k < |QualityOrder|
    ensures TierGroup(fs, QualityOrder[k]) != [] ==>
              && SelectTiers(fs, k) == [TierPick(fs, QualityOrder[k])] + SelectTiers(fs, k + 1)
              && TierRank(TierPick(fs, QualityOrder[k])) == k
    ensures TierGroup(fs, QualityOrder[k]) == [] ==> SelectTiers(fs, k) == SelectTiers(fs, k + 1)
  {
    RankOfTier(k);
  }

  /** `d` is the rendition chosen for the tier its label names. */
  predicate IsTierPick(fs: seq<Descriptor>, d: Descriptor)
  {
    d.qualityLabel.Some? && TierGroup(fs, d.qualityLabel.value) != [] && d == TierPick(fs, d.qualityLabel.value)
  }

  /** Each selected rendition is the pick of its own tier. */
  lemma {:induction false} SelectTiersPicks(fs: seq<Descriptor>, k: nat)
    requires k <= |QualityOrder|
    ensures forall i :: 0 <= i < |SelectTiers(fs, k)| ==> IsTierPick(fs, SelectTiers(fs, k)[i])
    decreases |QualityOrder| - k
  {
    if k < |QualityOrder| {
      SelectTiersPicks(fs, k + 1);
      SelectTiersStep(fs, k);
      var rest := SelectTiers(fs, k + 1);
      if TierGroup(fs, QualityOrder[k]) != [] {
        var d := TierPick(fs, QualityOrder[k]);
        assert IsTierPick(fs, d) by {
          assert d.qualityLabel == Some(QualityOrder[k]);
        }
        PicksCons(fs, d, rest);
      }
    }
  }

  lemma PicksCons(fs: seq<Descriptor>, d: Descriptor, rest: seq<Descriptor>)
    requires IsTierPick(fs, d)
    requires forall i :: 0 <= i < |rest| ==> IsTierPick(fs, rest[i])
    ensures forall i :: 0 <= i < |[d] + rest| ==> IsTierPick(fs, ([d] + rest)[i])
  {
    var r := [d] + rest;
    forall i | 0 <= i < |r|
      ensures IsTierPick(fs, r[i])
    {
      if i > 0 {
        assert r[i] == rest[i - 1];
      }
    }
  }

  lemma RankOccursInCons(d: Descriptor, rest: seq<Descriptor>, t: nat)
    ensures (exists i :: 0 <= i < |[d] + rest| && TierRank(([d] + rest)[i]) == t)
        <==> (TierRank(d) == t || exists i :: 0 <= i < |rest| && TierRank(rest[i]) == t)
  {
    var r := [d] + rest;
    assert r[0] == d;
    assert forall i :: 1 <= i < |r| ==> r[i] == rest[i - 1];
    assert forall i :: 0 <= i < |rest| ==> rest[i] == r[i + 1];
  }

  /** A tier is represented in the selection exactly when some rendition
      competes for it. */
  lemma {:induction false} SelectTiersCoverage(fs: seq<Descriptor>, k: nat, t: nat)
    requires k <= t < |QualityOrder|
    ensures TierGroup(fs, QualityOrder[t]) != [] <==>
            exists i :: 0 <= i < |SelectTiers(fs, k)| && TierRank(SelectTiers(fs, k)[i]) == t
    decreases |QualityOrder| - k
  {
    SelectTiersStep(fs, k);
    var rest := SelectTiers(fs, k + 1);
    if TierGroup(fs, QualityOrder[k]) != [] {
      RankOccursInCons(TierPick(fs, QualityOrder[k]), rest, t);
    }
    if k < t {
      SelectTiersCoverage(fs, k + 1, t);
    }
  }

  /** In a group of mp4 renditions the two audio searches coincide. */
  lemma PickInMp4Group(group: seq<Descriptor>, k: nat)
    requires forall m :: 0 <= m < |group| ==> group[m].container == "mp4"
    requires k < |group| && group[k].hasAudio
    ensures FirstIndex(group, HasAudio) == Some(PickIndex(group))
  {
    assert IsMp4WithAudio(group[k]);
    var m := FirstIndex(group, IsMp4WithAudio);
    assert m.Some?;
    var i := m.value;
    assert PickIndex(group) == i;
    forall j | 0 <= j < i
      ensures !HasAudio(group[j])
    {
      assert !IsMp4WithAudio(group[j]);
    }
    assert HasAudio(group[k]);
    var f := FirstIndex(group, HasAudio);
    assert f.Some?;
    FirstIsUnique(group, i, f.value, HasAudio);
  }

  lemma TierChoiceWithAudio(fs: seq<Descriptor>, q: string, j: nat)
    requires TierGroup(fs, q) != []
    requires j < |fs| && TierCandidate(q)(fs[j]) && fs[j].hasAudio
    ensures exists i :: IsFirst(fs, i, And(TierCandidate(q), HasAudio)) && fs[i] == TierPick(fs, q)
  {
    var group := TierGroup(fs, q);
    TierGroupIsFilter(fs, q);
    FilterMembers(fs, TierCandidate(q));
    assert fs[j] in group;
    var k :| 0 <= k < |group| && group[k] == fs[j];
    PickInMp4Group(group, k);
    FirstIndexOfFilter(fs, TierCandidate(q), HasAudio);
    var i' := FirstIndex(fs, And(TierCandidate(q), HasAudio)).value;
    assert IsFirst(fs, i', And(TierCandidate(q), HasAudio));
  }

  lemma TierChoiceWithoutAudio(fs: seq<Descriptor>, q: string)
    requires TierGroup(fs, q) != []
    requires forall j :: 0 <= j < |fs| && TierCandidate(q)(fs[j]) ==> !fs[j].hasAudio
    ensures exists i :: IsEarliestMax(fs, i, TierCandidate(q), Bitrate) && fs[i] == TierPick(fs, q)
  {
    var group := TierGroup(fs, q);
    TierGroupIsFilter(fs, q);
    FilterMembers(fs, TierCandidate(q));
    assert forall k :: 0 <= k < |group| ==> group[k] in fs;
    assert forall k :: 0 <= k < |group| ==> !group[k].hasAudio;
    assert PickIndex(group) == ReduceMax(group, Bitrate);
    assert group[0] in fs;
    var j' :| 0 <= j' < |fs| && fs[j'] == group[0];
    assert TierCandidate(q)(fs[j']);
    ReduceMaxOfFilter(fs, TierCandidate(q), Bitrate);
  }

  /** Within tier `q`, the rendition shown is the first candidate of the
      provider's list that carries audio; when none does, it is the earliest
      candidate of highest bitrate. */
  lemma TierChoice(fs: seq<Descriptor>, q: string)
    requires TierGroup(fs, q) != []
    ensures (exists j :: 0 <= j < |fs| && TierCandidate(q)(fs[j]) && fs[j].hasAudio) ==>
              exists i :: IsFirst(fs, i, And(TierCandidate(q), HasAudio)) && fs[i] == TierPick(fs, q)
    ensures (forall j :: 0 <= j < |fs| && TierCandidate(q)(fs[j]) ==> !fs[j].hasAudio) ==>
              exists i :: IsEarliestMax(fs, i, TierCandidate(q), Bitrate) && fs[i] == TierPick(fs, q)
  {
    if exists j :: 0 <= j < |fs| && TierCandidate(q)(fs[j]) && fs[j].hasAudio {
      var j :| 0 <= j < |fs| && TierCandidate(q)(fs[j]) && fs[j].hasAudio;
      TierChoiceWithAudio(fs, q, j);
    } else {
      TierChoiceWithoutAudio(fs, q);
    }
  }

  /** The `formats` entry for a video rendition. */
  function VideoEntry(d: Descriptor): (e: SelectedFormat)
    requires d.qualityLabel.Some?
    ensures e.kind == VideoKind && e.hasVideo && e.itag == d.itag && e.quality == d.qualityLabel.value
    ensures e.container == d.container && e.hasAudio == d.hasAudio
  {
    SelectedFormat(d.itag, d.qualityLabel.value, d.container, true, d.hasAudio, VideoKind)
  }

  /** The `formats` entry for the audio rendition, offered as mp3 and labelled
      with its bitrate, `"{audioBitrate}kbps"`. */
  function AudioEntry(d: Descriptor): (e: SelectedFormat)
    ensures e.kind == AudioKind && !e.hasVideo && e.hasAudio && e.container == "mp3"
    ensures e.itag == d.itag
    ensures |e.quality| > 4 && e.quality[|e.quality| - 4..] == "kbps"
    ensures AllDigits(e.quality[..|e.quality| - 4]) && DecimalValue(e.quality[..|e.quality| - 4]) == d.audioBitrate
    ensures |e.quality| == 5 || e.quality[0] != '0'
  {
    var digits := NatToString(d.audioBitrate);
    var quality := digits + "kbps";
    assert quality[..|quality| - 4] == digits;
    SelectedFormat(d.itag, quality, "mp3", false, true, AudioKind)
  }

  /** `bestAudioFormat`: the audio-only rendition of highest audio bitrate. */
  function BestAudio(fs: seq<Descriptor>): (a: Option<Descriptor>)
    ensures a.None? <==> forall j :: 0 <= j < |fs| ==> !IsAudioOnly(fs[j])
    ensures a.Some? ==> exists i :: IsEarliestMax(fs, i, IsAudioOnly, AudioBitrate) && fs[i] == a.value
  {
    var audio := Filter(fs, IsAudioOnly);
    FilterMembers(fs, IsAudioOnly);
    if exists j :: 0 <= j < |fs| && IsAudioOnly(fs[j]) then
      ReduceMaxOfFilter(fs, IsAudioOnly, AudioBitrate);
      BestBy(audio, AudioBitrate)
    else
      BestBy(audio, AudioBitrate)
  }

  /** The `formats` array: the tiers' video entries, best first, then the
      audio entry if there is an audio-only rendition. */
  function SelectFormats(fs: seq<Descriptor>): (r: seq<SelectedFormat>)
    ensures |r| <= |QualityOrder| + 1
    ensures forall i :: 0 <= i < |r| - 1 ==> r[i].kind == VideoKind
    ensures (exists j :: 0 <= j < |fs| && IsAudioOnly(fs[j])) <==> (|r| > 0 && r[|r| - 1].kind == AudioKind)
  {
    var videos := SelectTiers(fs, 0);
    EntriesShape(videos, BestAudio(fs));
    VideoEntries(videos) + AudioEntries(BestAudio(fs))
  }

  /** Video entries followed by at most one audio entry. */
  lemma EntriesShape(videos: seq<Descriptor>, best: Option<Descriptor>)
    requires forall i :: 0 <= i < |videos| ==> videos[i].qualityLabel.Some?
    ensures var r := VideoEntries(videos) + AudioEntries(best);
      && |r| == |videos| + (if best.Some? then 1 else 0)
      && (forall i :: 0 <= i < |r| - 1 ==> r[i].kind == VideoKind)
      && (best.Some? <==> |r| > 0 && r[|r| - 1].kind == AudioKind)
  {
    var r := VideoEntries(videos) + AudioEntries(best);
    assert forall i :: 0 <= i < |videos| ==> r[i] == VideoEntry(videos[i]);
  }

  /** Where the entries of `SelectFormats` come from: the tiers' renditions
      in order, then the best audio rendition if there is one. */
  lemma SelectFormatsLayout(fs: seq<Descriptor>)
    ensures var videos := SelectTiers(fs, 0); var r := SelectFormats(fs);
      && |r| == |videos| + (if BestAudio(fs).Some? then 1 else 0)
      && (forall i :: 0 <= i < |videos| ==> r[i] == VideoEntry(videos[i]))
      && (BestAudio(fs).Some? ==> r[|videos|] == AudioEntry(BestAudio(fs).value))
  {
    var videos := SelectTiers(fs, 0);
    var r := VideoEntries(videos) + AudioEntries(BestAudio(fs));
    assert SelectFormats(fs) == r;
    assert forall i :: 0 <= i < |videos| ==> r[i] == VideoEntry(videos[i]);
  }

  /** The video entries are mp4 renditions of listed tiers, best tier first
      with no tier twice, and they all come before the audio entry. */
  lemma VideoEntriesInTierOrder(fs: seq<Descriptor>)
    ensures var r := SelectFormats(fs);
      && (forall i :: 0 <= i < |r| && r[i].kind == VideoKind ==>
            r[i].hasVideo && r[i].container == "mp4" && r[i].quality in QualityOrder)
      && (forall i, j :: 0 <= i < j < |r| && r[j].kind == VideoKind ==>
            r[i].kind == VideoKind && Rank(r[i].quality) < Rank(r[j].quality))
  {
    var videos := SelectTiers(fs, 0);
    var r := SelectFormats(fs);
    SelectFormatsLayout(fs);
    forall i | 0 <= i < |r| && r[i].kind == VideoKind
      ensures i < |videos| && r[i].hasVideo && r[i].container == "mp4" && r[i].quality in QualityOrder
      ensures Rank(r[i].quality) == TierRank(videos[i])
    {
      assert r[i] == VideoEntry(videos[i]);
    }
  }

  /** `selectedFormats.map(...)`: one video entry per rendition, in order. */
  function VideoEntries(videos: seq<Descriptor>): (r: seq<SelectedFormat>)
    requires forall i :: 0 <= i < |videos| ==> videos[i].qualityLabel.Some?
    ensures |r| == |videos| && forall i :: 0 <= i < |r| ==> r[i] == VideoEntry(videos[i])
  {
    seq(|videos|, i requires 0 <= i < |videos| => VideoEntry(videos[i]))
  }

  /** The audio entry pushed when there is a best audio rendition. */
  function AudioEntries(best: Option<Descriptor>): (r: seq<SelectedFormat>)
    ensures best.None? ==> r == []
    ensures best.Some? ==> r == [AudioEntry(best.value)]
  {
    match best
    case Some(a) => [AudioEntry(a)]
    case None => []
  }

  /** Every video entry shows the pick of the tier its quality names. */
  lemma VideoEntriesArePicks(fs: seq<Descriptor>)
    ensures forall i :: 0 <= i < |SelectFormats(fs)| && SelectFormats(fs)[i].kind == VideoKind ==>
              TierGroup(fs, SelectFormats(fs)[i].quality) != []
              && SelectFormats(fs)[i] == VideoEntry(TierPick(fs, SelectFormats(fs)[i].quality))
  {
    var videos := SelectTiers(fs, 0);
    SelectTiersPicks(fs, 0);
    var r := SelectFormats(fs);
    forall i | 0 <= i < |r| && r[i].kind == VideoKind
      ensures TierGroup(fs, r[i].quality) != [] && r[i] == VideoEntry(TierPick(fs, r[i].quality))
    {
      assert i < |videos| && r[i] == VideoEntry(videos[i]);
    }
  }

  /** The tiers shown are exactly the tiers some candidate competes for. */
  lemma TiersShownAreTiersOffered(fs: seq<Descriptor>, t: nat)
    requires t < |QualityOrder|
    ensures TierGroup(fs, QualityOrder[t]) != [] <==>
            exists i :: 0 <= i < |SelectFormats(fs)| && SelectFormats(fs)[i].kind == VideoKind
                        && SelectFormats(fs)[i].quality == QualityOrder[t]
  {
    if TierGroup(fs, QualityOrder[t]) != [] {
      OfferedTierIsShown(fs, t);
    }
    if exists i :: 0 <= i < |SelectFormats(fs)| && SelectFormats(fs)[i].kind == VideoKind
                   && SelectFormats(fs)[i].quality == QualityOrder[t] {
      var i :| 0 <= i < |SelectFormats(fs)| && SelectFormats(fs)[i].kind == VideoKind
               && SelectFormats(fs)[i].quality == QualityOrder[t];
      ShownTierIsOffered(fs, t, i);
    }
  }

  lemma OfferedTierIsShown(fs: seq<Descriptor>, t: nat)
    requires t < |QualityOrder| && TierGroup(fs, QualityOrder[t]) != []
    ensures exists i :: 0 <= i < |SelectFormats(fs)| && SelectFormats(fs)[i].kind == VideoKind
                        && SelectFormats(fs)[i].quality == QualityOrder[t]
  {
    var videos := SelectTiers(fs, 0);
    var i := ShownIndexOfTier(fs, t);
    SelectFormatsLayout(fs);
    assert SelectFormats(fs)[i] == VideoEntry(videos[i]);
  }

  /** Where an offered tier's rendition sits among the selected videos. */
  lemma ShownIndexOfTier(fs: seq<Descriptor>, t: nat) returns (i: nat)
    requires t < |QualityOrder| && TierGroup(fs, QualityOrder[t]) != []
    ensures i < |SelectTiers(fs, 0)| && SelectTiers(fs, 0)[i].qualityLabel == Some(QualityOrder[t])
  {
    var videos := SelectTiers(fs, 0);
    SelectTiersCoverage(fs, 0, t);
    RankOfTier(t);
    i :| 0 <= i < |videos| && TierRank(videos[i]) == t;
  }

  lemma ShownTierIsOffered(fs: seq<Descriptor>, t: nat, i: nat)
    requires t < |QualityOrder|
    requires i < |SelectFormats(fs)| && SelectFormats(fs)[i].kind == VideoKind
    requires SelectFormats(fs)[i].quality == QualityOrder[t]
    ensures TierGroup(fs, QualityOrder[t]) != []
  {
    var videos := SelectTiers(fs, 0);
    SelectFormatsLayout(fs);
    ShownEntryIsVideo(fs, i);
    assert SelectFormats(fs)[i] == VideoEntry(videos[i]);
    RankOfTier(t);
    assert TierRank(videos[i]) == t;
    SelectTiersCoverage(fs, 0, t);
  }

  /** An entry of kind audio is the audio entry of the best audio rendition. */
  lemma AudioKindEntry(fs: seq<Descriptor>, i: nat)
    requires i < |SelectFormats(fs)| && SelectFormats(fs)[i].kind == AudioKind
    ensures BestAudio(fs).Some? && SelectFormats(fs)[i] == AudioEntry(BestAudio(fs).value)
  {
    SelectFormatsLayout(fs);
  }

  /** A video entry stands at a position of the tiers' renditions. */
  lemma ShownEntryIsVideo(fs: seq<Descriptor>, i: nat)
    requires i < |SelectFormats(fs)| && SelectFormats(fs)[i].kind == VideoKind
    ensures i < |SelectTiers(fs, 0)|
  {
    SelectFormatsLayout(fs);
  }

  /** The last entry, when it is the audio one, offers the earliest audio-only
      rendition of highest audio bitrate. */
  lemma AudioEntryIsBestAudio(fs: seq<Descriptor>)
    requires exists j :: 0 <= j < |fs| && IsAudioOnly(fs[j])
    ensures exists i :: IsEarliestMax(fs, i, IsAudioOnly, AudioBitrate)
                        && SelectFormats(fs)[|SelectFormats(fs)| - 1] == AudioEntry(fs[i])
  {
    var a := BestAudio(fs).value;
    var i :| IsEarliestMax(fs, i, IsAudioOnly, AudioBitrate) && fs[i] == a;
    assert SelectFormats(fs)[|SelectFormats(fs)| - 1] == AudioEntry(a);
  }

  /** `thumbnail`: the widest of the provider's thumbnails, the first on ties. */
  function BestThumbnail(ts: seq<Thumbnail>): (t: Option<Thumbnail>)
    ensures t.None? <==> ts == []
    ensures t.Some? ==> exists i :: IsEarliestMax(ts, i, Any(), Width) && ts[i] == t.value
  {
    BestBy(ts, Width)
  }
}
