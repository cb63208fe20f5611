/** A story node and its single-passage playback step, shared by the linear
    graph and the storylet bag. The dispatch callback is modelled as an
    action log that playback appends to. */
module Nodes {
  import opened Story
  import opened GameActions

  /** The node's track: the supplied one when it is a non-empty string,
      otherwise "default" (an empty string is falsy and is replaced too). */
  function TrackOrDefault(t: Option<string>): (r: string)
    ensures r != ""
    ensures t.Some? && t.value != "" ==> r == t.value
    ensures t.None? || t.value == "" ==> r == "default"
  {
    if t.Some? && t.value != "" then t.value else "default"
  }

  /** The OUTPUT payload: a copy of the passage whose track is the node's
      track, every other field carried over. */
  function OutputPayload(p: Passage, track: string): (q: Passage)
    ensures q.track == Some(track)
    ensures q.passageId == p.passageId && q.content == p.content
    ensures q.contentType == p.contentType && q.patch == p.patch
    ensures q.guard == p.guard
  {
    p.(track := Some(track))
  }

  /** An action a passage may raise, with the payload it must carry. */
  predicate Warranted(p: Passage, track: string, a: Action)
  {
    match a
    case Output(q) => p.content.Some? && q == OutputPayload(p, track)
    case SetVariables(s) => p.patch == Some(s)
    case CompletePassage(id) => p.content.None? && id == p.passageId
  }

  /** Reference description of what playing passage `p` on a node with track
      `track` raises: only warranted actions, each kind at most once and in
      OUTPUT, SET_VARIABLES, COMPLETE_PASSAGE order; OUTPUT when there is
      content, SET_VARIABLES when there is a patch, COMPLETE_PASSAGE when
      there is no content. */
  predicate PlaySpec(p: Passage, track: string, acts: seq<Action>)
  {
    && StrictlyRanked(acts)
    && (forall a | a in acts :: Warranted(p, track, a))
    && (p.content.Some? ==> Output(OutputPayload(p, track)) in acts)
    && (p.patch.Some? ==> SetVariables(p.patch.value) in acts)
    && (p.content.None? ==> CompletePassage(p.passageId) in acts)
  }

  /** The actions raised for one passage that is present and has a dispatch
      to go to. */
  function PassageActions(p: Passage, track: string): (acts: seq<Action>)
    ensures PlaySpec(p, track, acts)
    ensures 1 <= |acts| <= 2
    ensures (exists i | 0 <= i < |acts| :: acts[i].Output?) <==> p.content.Some?
    ensures (exists i | 0 <= i < |acts| :: acts[i].CompletePassage?) <==> p.content.None?
    ensures (exists i | 0 <= i < |acts| :: acts[i].SetVariables?) <==> p.patch.Some?
  {
    var output := if p.content.Some? then [Output(OutputPayload(p, track))] else [];
    var setVariables := if p.patch.Some? then [SetVariables(p.patch.value)] else [];
    var complete := if p.content.None? then [CompletePassage(p.passageId)] else [];
    output + setVariables + complete
  }

  /** PlaySpec admits exactly one action list: the one PassageActions gives. */
  lemma PlaySpecUnique(p: Passage, track: string, acts: seq<Action>)
    requires PlaySpec(p, track, acts)
    ensures acts == PassageActions(p, track)
  {
    var expected := PassageActions(p, track);
    forall a
      ensures a in acts <==> a in expected
    {
      if a in acts {
        assert Warranted(p, track, a);
      }
    }
    RankedEqual(acts, expected);
  }

  /** Whether `passageIndex` names a passage that playback will act on. */
  predicate Playable(passages: Option<seq<Passage>>, passageIndex: int, attached: bool)
  {
    passages.Some? && 0 <= passageIndex < |passages.value| && attached
  }

  /** Everything one playPassage call raises: nothing when the node has no
      passages, the index is out of range or no dispatch is attached;
      otherwise the passage's actions. */
  function PlayActions(passages: Option<seq<Passage>>, passageIndex: int, attached: bool, track: string)
    : (acts: seq<Action>)
    ensures acts == [] <==> !Playable(passages, passageIndex, attached)
    ensures Playable(passages, passageIndex, attached) ==>
      PlaySpec(passages.value[passageIndex], track, acts)
    ensures |acts| <= 2
  {
    if passages.None? then []
    else if !(0 <= passageIndex < |passages.value|) || !attached then []
    else PassageActions(passages.value[passageIndex], track)
  }

  /** A story node. Its definition fields are read-only; `attached` says
      whether a dispatch callback is wired, and `log` is every action raised
      through it so far. */
  class Node {
    const nodeId: string
    const passages: Option<seq<Passage>>
    const choices: Option<seq<Choice>>
    const track: string
    const guard: Option<Predicate>
    const allowRepeats: Option<bool>
    var attached: bool
    var log: seq<Action>

    /** Copies the definition onto the node and defaults the track. */
    constructor (data: NodeData, attached: bool)
      ensures nodeId == data.nodeId && passages == data.passages && choices == data.choices
      ensures guard == data.guard && allowRepeats == data.allowRepeats
      ensures data.track.Some? && data.track.value != "" ==> track == data.track.value
      ensures data.track.None? || data.track.value == "" ==> track == "default"
      ensures this.attached == attached && log == []
    {
      nodeId := data.nodeId;
      passages := data.passages;
      choices := data.choices;
      guard := data.guard;
      allowRepeats := data.allowRepeats;
      track := TrackOrDefault(data.track);
      this.attached := attached;
      log := [];
    }

    /** Plays the passage at `passageIndex`: raises OUTPUT with the passage
        on this node's track when it has content, SET_VARIABLES with its
        patch when it has one, and COMPLETE_PASSAGE with its id when it has
        no content. */
    method PlayPassage(passageIndex: int)
      modifies this`log
      ensures log == old(log) + PlayActions(passages, passageIndex, attached, track)
      ensures !Playable(passages, passageIndex, attached) ==> log == old(log)
      ensures Playable(passages, passageIndex, attached) ==>
        |old(log)| < |log| <= |old(log)| + 2 && log[..|old(log)|] == old(log) &&
        PlaySpec(passages.value[passageIndex], track, log[|old(log)|..])
    {
      if passages.None? {
        return;
      }
      if !(0 <= passageIndex < |passages.value|) || !attached {
        return;
      }
      var passage := passages.value[passageIndex];
      var hasContent := passage.content.Some?;
      if hasContent {
        log := log + [Output(OutputPayload(passage, track))];
      }
      if passage.patch.Some? {
        log := log + [SetVariables(passage.patch.value)];
      }
      if !hasContent {
        log := log + [CompletePassage(passage.passageId)];
      }
    }
  }

  /** The actions raised by playPassage calls on the indexes `idxs`, in turn,
      on one node. */
  function Replay(passages: Option<seq<Passage>>, attached: bool, track: string, idxs: seq<int>)
    : seq<Action>
  {
    if idxs == [] then []
    else (Replay(passages, attached, track, idxs[..|idxs| - 1])
          + PlayActions(passages, idxs[|idxs| - 1], attached, track))
  }

  /** Number of actions that end a passage's playback: OUTPUT (finished later
      by an external completion) or COMPLETE_PASSAGE (finished at once). */
  function CompletionSignals(acts: seq<Action>): nat
  {
    if acts == [] then 0
    else (CompletionSignals(acts[..|acts| - 1])
          + if acts[|acts| - 1].Output? || acts[|acts| - 1].CompletePassage? then 1 else 0)
  }

  /** Number of indexes in `idxs` that name a playable passage. */
  function PlayableCount(passages: Option<seq<Passage>>, attached: bool, idxs: seq<int>): nat
  {
    if idxs == [] then 0
    else (PlayableCount(passages, attached, idxs[..|idxs| - 1])
          + if Playable(passages, idxs[|idxs| - 1], attached) then 1 else 0)
  }

  lemma {:induction false} CompletionSignalsAppend(xs: seq<Action>, ys: seq<Action>)
    ensures CompletionSignals(xs + ys) == CompletionSignals(xs) + CompletionSignals(ys)
    decreases |ys|
  {
    if ys == [] {
      assert xs + ys == xs;
    } else {
      var init := ys[..|ys| - 1];
      assert (xs + ys)[..|xs + ys| - 1] == xs + init;
      CompletionSignalsAppend(xs, init);
    }
  }

  /** One playPassage call ends a passage exactly when its index is playable. */
  lemma OneSignalPerPlay(passages: Option<seq<Passage>>, passageIndex: int, attached: bool, track: string)
    ensures CompletionSignals(PlayActions(passages, passageIndex, attached, track))
      == if Playable(passages, passageIndex, attached) then 1 else 0
  {
    var acts := PlayActions(passages, passageIndex, attached, track);
    if Playable(passages, passageIndex, attached) {
      var p := passages.value[passageIndex];
      assert acts == PassageActions(p, track);
      if p.content.Some? {
        assert acts[..1] == [Output(OutputPayload(p, track))];
      } else {
        var init := acts[..|acts| - 1];
        assert init == (if p.patch.Some? then [SetVariables(p.patch.value)] else []);
        assert CompletionSignals(init) == 0 by {
          if init != [] {
            assert init[..0] == [];
          }
        }
      }
    }
  }

  /** Over any series of playPassage calls, the number of passage-ending
      actions raised equals the number of calls that named a playable
      passage: every played passage is ended exactly once, either
      immediately or by waiting for an external completion. */
  lemma {:induction false} ReplaySignals(passages: Option<seq<Passage>>, attached: bool, track: string, idxs: seq<int>)
    ensures CompletionSignals(Replay(passages, attached, track, idxs)) == PlayableCount(passages, attached, idxs)
    decreases |idxs|
  {
    if idxs != [] {
      var init := idxs[..|idxs| - 1];
      var last := idxs[|idxs| - 1];
      ReplaySignals(passages, attached, track, init);
      CompletionSignalsAppend(Replay(passages, attached, track, init), PlayActions(passages, last, attached, track));
      OneSignalPerPlay(passages, last, attached, track);
    }
  }
}
