/** Worked examples of the format selection in server.js on small descriptor
    lists, checked against the general contracts of `Formats`. */
module Scenarios {
  import opened Wrappers
  import opened Seqs
  import opened Text
  import opened Formats

  const Muxed1080 := Descriptor(22, true, true, "mp4", Some("1080p"), 2000, 192)
  const Silent1080 := Descriptor(137, true, false, "mp4", Some("1080p"), 4000, 0)
  const Webm720 := Descriptor(247, true, true, "webm", Some("720p"), 1500, 128)

  lemma CandidatesOfMixedList()
    ensures Filter([Muxed1080, Silent1080, Webm720], IsVideoCandidate) == [Muxed1080, Silent1080]
  {
    assert QualityOrder[2] == "1080p";
    assert IsVideoCandidate(Muxed1080) && IsVideoCandidate(Silent1080);
    assert Webm720.container[0] != "mp4"[0];
    assert !IsVideoCandidate(Webm720);
    var fs := [Muxed1080, Silent1080, Webm720];
    assert Filter([Webm720], IsVideoCandidate) == [] + Filter([Webm720][1..], IsVideoCandidate);
    assert [Webm720][1..] == [];
    assert fs[1..][1..] == [Webm720];
    assert Filter(fs[1..], IsVideoCandidate) == [Silent1080] + Filter(fs[1..][1..], IsVideoCandidate);
    assert Filter(fs, IsVideoCandidate) == [Muxed1080] + Filter(fs[1..], IsVideoCandidate);
  }

  lemma TierGroupsOfMixedList()
    ensures TierGroup([Muxed1080, Silent1080, Webm720], "1080p") == [Muxed1080, Silent1080]
    ensures TierGroup([Muxed1080, Silent1080, Webm720], "720p") == []
  {
    CandidatesOfMixedList();
    var g := [Muxed1080, Silent1080];
    assert g[1..] == [Silent1080];
    assert [Silent1080][1..] == [];
    assert Filter([Silent1080], InTier("1080p")) == [Silent1080] + Filter([Silent1080][1..], InTier("1080p"));
    assert Filter(g, InTier("1080p")) == [Muxed1080] + Filter(g[1..], InTier("1080p"));
    assert "720p" != "1080p";
    assert Filter([Silent1080], InTier("720p")) == [] + Filter([Silent1080][1..], InTier("720p"));
    assert Filter(g, InTier("720p")) == [] + Filter(g[1..], InTier("720p"));
  }

  const MixedList: seq<Descriptor> := [Muxed1080, Silent1080, Webm720]

  lemma MuxedIsThe1080pPick()
    ensures TierGroup(MixedList, "1080p") != [] && TierPick(MixedList, "1080p") == Muxed1080
  {
    TierGroupsOfMixedList();
    var g := [Muxed1080, Silent1080];
    assert IsMp4WithAudio(g[0]);
    assert PickIndex(g) == 0;
  }

  /** An entry labelled with a tier is a video entry: audio entries are
      labelled "...kbps". */
  lemma TierLabelledEntryIsVideo(fs: seq<Descriptor>, i: nat, q: string)
    requires q == "1080p" || q == "720p"
    requires i < |SelectFormats(fs)| && SelectFormats(fs)[i].quality == q
    ensures SelectFormats(fs)[i].kind == VideoKind
  {
    if SelectFormats(fs)[i].kind == AudioKind {
      AudioKindEntry(fs, i);
      assert false;
    }
  }

  /** A 1080p tier holding a muxed mp4 and a higher-bitrate silent mp4, next to
      a 720p webm: the muxed rendition is offered for 1080p. */
  lemma MuxedIsOffered()
    ensures exists i :: 0 <= i < |SelectFormats(MixedList)| && SelectFormats(MixedList)[i] == VideoEntry(Muxed1080)
  {
    MuxedIsThe1080pPick();
    assert QualityOrder[2] == "1080p";
    TiersShownAreTiersOffered(MixedList, 2);
    VideoEntriesArePicks(MixedList);
  }

  /** ... and it is the only 1080p entry. */
  lemma MuxedIsTheOnly1080pEntry()
    ensures forall i :: 0 <= i < |SelectFormats(MixedList)| && SelectFormats(MixedList)[i].quality == "1080p" ==>
              SelectFormats(MixedList)[i] == VideoEntry(Muxed1080)
  {
    var r := SelectFormats(MixedList);
    MuxedIsThe1080pPick();
    VideoEntriesArePicks(MixedList);
    forall i | 0 <= i < |r| && r[i].quality == "1080p"
      ensures r[i] == VideoEntry(Muxed1080)
    {
      TierLabelledEntryIsVideo(MixedList, i, "1080p");
    }
  }

  /** ... and since the only 720p rendition is webm, no 720p entry appears. */
  lemma No720pEntry()
    ensures forall i :: 0 <= i < |SelectFormats(MixedList)| ==> SelectFormats(MixedList)[i].quality != "720p"
  {
    var r := SelectFormats(MixedList);
    TierGroupsOfMixedList();
    assert QualityOrder[3] == "720p";
    TiersShownAreTiersOffered(MixedList, 3);
    forall i | 0 <= i < |r|
      ensures r[i].quality != "720p"
    {
      if r[i].quality == "720p" {
        TierLabelledEntryIsVideo(MixedList, i, "720p");
      }
    }
  }

  const Audio128 := Descriptor(140, false, true, "mp4", None, 128000, 128)
  const Audio160 := Descriptor(251, false, true, "webm", None, 160000, 160)
  const AudioList: seq<Descriptor> := [Audio128, Audio160]

  lemma AudioOnlyOfAudioList()
    ensures Filter(AudioList, IsAudioOnly) == AudioList
  {
    assert AudioList[1..] == [Audio160];
    assert [Audio160][1..] == [];
    assert Filter([Audio160], IsAudioOnly) == [Audio160] + Filter([Audio160][1..], IsAudioOnly);
    assert Filter(AudioList, IsAudioOnly) == [Audio128] + Filter(AudioList[1..], IsAudioOnly);
  }

  lemma NoTierInAudioList()
    ensures SelectTiers(AudioList, 0) == []
  {
    forall t | 0 <= t < |QualityOrder|
      ensures TierGroup(AudioList, QualityOrder[t]) == []
    {
      assert AudioList[1..] == [Audio160];
      assert Filter(AudioList[1..], IsVideoCandidate) == [] + Filter([Audio160][1..], IsVideoCandidate);
      assert Filter(AudioList, IsVideoCandidate) == [] + Filter(AudioList[1..], IsVideoCandidate);
    }
    var videos := SelectTiers(AudioList, 0);
    if videos != [] {
      var t := TierRank(videos[0]);
      assert TierGroup(AudioList, QualityOrder[t]) == [];
      SelectTiersCoverage(AudioList, 0, t);
    }
  }

  lemma BestAudioOfAudioList()
    ensures BestAudio(AudioList) == Some(Audio160)
  {
    AudioOnlyOfAudioList();
    assert AudioList[..1] == [Audio128];
    assert ReduceMax([Audio128], AudioBitrate) == 0;
    assert ReduceMax(AudioList, AudioBitrate) == 1;
  }

  lemma Label160()
    ensures AudioEntry(Audio160).quality == "160kbps"
  {
    assert NatToString(16) == "16";
    assert NatToString(160) == "160";
  }

  /** Two audio-only renditions at 128 and 160 kbps and no video: the list is
      exactly one audio entry, for the 160 kbps rendition, labelled "160kbps". */
  lemma HigherAudioBitrateWins()
    ensures SelectFormats(AudioList) == [AudioEntry(Audio160)]
    ensures AudioEntry(Audio160).quality == "160kbps"
  {
    NoTierInAudioList();
    BestAudioOfAudioList();
    Label160();
  }
}
