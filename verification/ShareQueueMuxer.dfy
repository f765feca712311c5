/** The muxer's message queue, which the audio and the video fan-out queue of a path have in common. */
module ShareQueueMuxer {
  import opened ShareQueueModel
  import opened ShareQueueRuns

  datatype Message = FromAudio(f: Frame) | FromVideo(f: Frame)

  function AudioOf(q: seq<Message>): seq<Frame> {
    if q == [] then [] else (if q[0].FromAudio? then [q[0].f] else []) + AudioOf(q[1..])
  }

  function VideoOf(q: seq<Message>): seq<Frame> {
    if q == [] then [] else (if q[0].FromVideo? then [q[0].f] else []) + VideoOf(q[1..])
  }

  /** User u of both queues is the muxer, and q is what waits for it, mixed in any order. */
  ghost predicate Common(audio: Share, video: Share, u: nat, q: seq<Message>) {
    && u < |audio.users| && u < |video.users|
    && audio.users[u].queue == AudioOf(q) && video.users[u].queue == VideoOf(q)
  }

  const SHARE_Q_COUNT: nat := 5
  const MUXER_Q_NUMBER: nat := 10

  lemma {:induction false} MixedLength(q: seq<Message>)
    ensures |q| == |AudioOf(q)| + |VideoOf(q)|
  {
    if q != [] {
      MixedLength(q[1..]);
    }
  }

  /** The common queue holds at most eight frames; whichever share queue adds one, and even with
      one stop command already in it, there is room. */
  lemma MuxerSendHasRoom(audio: Share, alive: seq<Frame>, video: Share, vlive: seq<Frame>, u: nat, q: seq<Message>)
    requires Inv(audio, alive) && Inv(video, vlive) && Common(audio, video, u, q)
    requires |audio.slots| == SHARE_Q_COUNT && |video.slots| == SHARE_Q_COUNT
    ensures |q| <= 8
    ensures !audio.Full() || !video.Full() ==> |q| + 1 < MUXER_Q_NUMBER - 1
  {
    hide Inv;
    SendHasRoom(audio, alive, u);
    SendHasRoom(video, vlive, u);
    MixedLength(q);
  }

  /** Switching the muxer off in the video queue drains the common queue: every message, an audio
      frame as well, is released to the video queue. */
  function DrainToVideo(video: Share, u: nat, q: seq<Message>): (r: Share)
    requires video.WellSized() && u < |video.users| && video.users[u].queue == VideoOf(q)
    ensures r.WellSized() && r.users == video.users[u := video.users[u].(queue := [])]
    decreases |q|
  {
    if q == [] then video
    else if q[0].FromVideo? then
      ReleaseKeepsUsers(Popped(video, u), q[0].f);
      DrainToVideo(DrainOne(video, u), u, q[1..])
    else
      ReleaseKeepsUsers(video, q[0].f);
      DrainToVideo(Release(video, q[0].f).0, u, q[1..])
  }

  /** A frame of the other queue is not found, and nothing happens. */
  lemma AlienNotFound(s: Share, live: seq<Frame>, f: Frame)
    requires Inv(s, live) && f !in live
    ensures s.WellSized() && Release(s, f) == (s, -1)
  {
    hide Holders, EnabledCount;
    LiveCountIsLength(s, live);
    assert forall j :: 0 <= j < |live| ==> s.At(j).frame == live[j];
  }

  /** The video side is drained as if the queue were its own. */
  lemma {:induction false} VideoDrained(video: Share, vlive: seq<Frame>, u: nat, q: seq<Message>)
      returns (live': seq<Frame>)
    requires Inv(video, vlive) && u < |video.users| && video.users[u].hand == [] && video.users[u].queue == VideoOf(q)
    requires forall f <- AudioOf(q) :: f !in vlive
    ensures video.WellSized() && Inv(DrainToVideo(video, u, q), live')
    ensures DrainToVideo(video, u, q).freed + live' == video.freed + vlive
    decreases |q|
  {
    hide Inv, DrainOne, Release, Share.WellSized;
    live' := vlive;
    CountedUsers(video, vlive);
    if q != [] && q[0].FromVideo? {
      var live1 := DrainOneKeepsInvIff(video, vlive, u);
      assert forall f <- live1 :: f in vlive;
      live' := VideoDrained(DrainOne(video, u), live1, u, q[1..]);
    } else if q != [] {
      assert AudioOf(q)[0] == q[0].f;
      AlienNotFound(video, vlive, q[0].f);
      assert forall f <- AudioOf(q[1..]) :: f in AudioOf(q);
      live' := VideoDrained(video, vlive, u, q[1..]);
    }
  }

  lemma {:induction false} DrainToVideoKeepsFrames(video: Share, u: nat, q: seq<Message>)
    requires video.WellSized() && u < |video.users| && video.users[u].queue == VideoOf(q)
    ensures SameRing(video, DrainToVideo(video, u, q))
    decreases |q|
  {
    if q != [] {
      ReleaseKeepsUsers(FirstTaken(video, u, q), q[0].f);
      ReleaseKeepsFrames(FirstTaken(video, u, q), q[0].f);
      var next := Release(FirstTaken(video, u, q), q[0].f).0;
      hide Release;
      DrainToVideoKeepsFrames(next, u, q[1..]);
    }
  }

  /** The video queue after the first message has been taken out of the common queue. */
  function FirstTaken(video: Share, u: nat, q: seq<Message>): Share
    requires q != [] && u < |video.users| && video.users[u].queue == VideoOf(q)
  { if q[0].FromVideo? then Popped(video, u) else video }

  /** With a common queue, switching the muxer off in the video queue keeps the video queue's
      references exactly when the muxer has no video frame in hand or none is waiting, and the audio
      queue's exactly when no audio frame is waiting: those are taken out of the queue and their
      references never dropped. */
  lemma CommonDrainKeepsInvIff(audio: Share, alive: seq<Frame>, video: Share, vlive: seq<Frame>, u: nat,
      q: seq<Message>)
    returns (vlive': seq<Frame>)
    requires Inv(audio, alive) && Inv(video, vlive) && Common(audio, video, u, q)
    requires forall f <- AudioOf(q) :: f !in vlive
    ensures video.WellSized()
    ensures if video.users[u].hand == [] || VideoOf(q) == [] then
              Inv(DrainToVideo(video, u, q), vlive')
              && DrainToVideo(video, u, q).freed + vlive' == video.freed + vlive
            else forall l :: !Inv(DrainToVideo(video, u, q), l)
    ensures (exists l :: Inv(Emptied(audio, u), l)) <==> AudioOf(q) == []
  {
    hide Inv, Share.WellSized, DrainToVideo;
    CountedUsers(video, vlive);
    EmptiedKeepsInvIff(audio, alive, u);
    vlive' := vlive;
    if video.users[u].hand == [] {
      vlive' := VideoDrained(video, vlive, u, q);
    } else if VideoOf(q) == [] {
      OnlyAudioDrained(video, vlive, u, q);
    } else {
      DrainToVideoKeepsFrames(video, u, q);
      var n := |video.users[u].queue|;
      assert DrainToVideo(video, u, q).users[u].Pending() == video.users[u].hand + video.users[u].queue[n..];
      forall l ensures !Inv(DrainToVideo(video, u, q), l) {
        PassedOver(video, vlive, DrainToVideo(video, u, q), l, u, n);
      }
    }
  }

  /** Audio frames alone leave the video queue as it is. */
  lemma {:induction false} OnlyAudioDrained(video: Share, vlive: seq<Frame>, u: nat, q: seq<Message>)
    requires Inv(video, vlive) && u < |video.users| && video.users[u].queue == VideoOf(q) == []
    requires forall f <- AudioOf(q) :: f !in vlive
    ensures video.WellSized() && DrainToVideo(video, u, q) == video
    decreases |q|
  {
    hide Inv, Release, Share.WellSized;
    CountedUsers(video, vlive);
    if q != [] {
      assert AudioOf(q)[0] == q[0].f;
      AlienNotFound(video, vlive, q[0].f);
      assert forall f <- AudioOf(q[1..]) :: f in AudioOf(q);
      OnlyAudioDrained(video, vlive, u, q[1..]);
    }
  }
}
