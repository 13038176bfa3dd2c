/** The shared session of the newer code base (session.go): the completion
    slot made by init, the terminal state saved by makeRawTerminal, and the
    ordered teardown of cleanup.  The data channel's SendText and
    terminal.Restore are entries in one ordered log of actions; what they
    return is a parameter. */
module Session {
  import opened Common

  /** What cleanup does that can be observed, in order. */
  datatype Action = SentQuit | Restored(state: TermState)

  /** The actions of cleanup: `"quit"` when a data channel exists (whatever
      SendText returns), then, for a terminal, the restore of the saved
      state if there is one. */
  function CleanupActions(hasChannel: bool, isTerminal: bool, saved: Option<TermState>): (r: seq<Action>)
    ensures (SentQuit in r) <==> hasChannel
    ensures forall t :: Restored(t) in r <==> isTerminal && saved == Some(t)
    ensures hasChannel && |r| == 2 ==> r[0] == SentQuit && r[1].Restored?
  {
    (if hasChannel then [SentQuit] else []) +
    (if isTerminal && saved.Some? then [Restored(saved.value)] else [])
  }

  /** The quit always goes out before the terminal is restored. */
  lemma {:induction false} QuitBeforeRestore(hasChannel: bool, isTerminal: bool, saved: Option<TermState>, i: nat, j: nat)
    requires var r := CleanupActions(hasChannel, isTerminal, saved);
      i < |r| && j < |r| && r[i] == SentQuit && r[j].Restored?
    ensures i < j
  {
    var r := CleanupActions(hasChannel, isTerminal, saved);
    assert |r| <= 2;
    if hasChannel {
      assert r[0] == SentQuit;
      if |r| == 2 {
        assert r[1].Restored?;
      }
    }
  }

  class Session {
    /** Whether init made errChan. */
    var slotCreated: bool
    var completion: Option<Signal>
    var isTerminal: bool
    var oldTerminalState: Option<TermState>
    var hasChannel: bool
    var actions: seq<Action>

    constructor ()
      ensures !slotCreated && completion.None? && oldTerminalState.None? && !hasChannel && actions == []
    {
      slotCreated := false;
      completion := None;
      isTerminal := false;
      oldTerminalState := None;
      hasChannel := false;
      actions := [];
    }

    /** init: a fresh capacity-one errChan, whether stdin is a terminal, then
        createPeerConnection, whose error is returned. */
    method Init(isTerm: bool, pcErr: Option<Error>) returns (err: Option<Error>)
      modifies this`slotCreated, this`completion, this`isTerminal
      ensures slotCreated && completion.None? && isTerminal == isTerm
      ensures err == pcErr
    {
      slotCreated := true;
      completion := None;
      isTerminal := isTerm;
      return pcErr;
    }

    /** `s.dc = dc`: the session now holds a data channel, which cleanup
        will tell to quit. */
    method SetChannel()
      modifies this`hasChannel
      ensures hasChannel
    {
      hasChannel := true;
    }

    /** restoreTerminalState: nil and no action without a saved state;
        otherwise the saved state is restored and Restore's error returned. */
    method RestoreTerminalState(restoreErr: Option<Error>) returns (err: Option<Error>)
      modifies this`actions
      ensures oldTerminalState.None? ==> err.None? && actions == old(actions)
      ensures oldTerminalState.Some? ==>
        err == restoreErr && actions == old(actions) + [Restored(oldTerminalState.value)]
    {
      if oldTerminalState.None? {
        return None;
      }
      actions := actions + [Restored(oldTerminalState.value)];
      return restoreErr;
    }

    /** makeRawTerminal: the slot takes what MakeRaw returned, nil when it
        failed; MakeRaw's error is returned. */
    method MakeRawTerminal(raw: Result<TermState>) returns (err: Option<Error>)
      modifies this`oldTerminalState
      ensures oldTerminalState == (if raw.Ok? then Some(raw.value) else None)
      ensures err == (if raw.Err? then Some(raw.error) else None)
    {
      if raw.Ok? {
        oldTerminalState := Some(raw.value);
        return None;
      }
      oldTerminalState := None;
      return Some(raw.error);
    }

    /** cleanup: a failed quit is only logged, and the restore still
        happens; a failed restore is only logged.  SendText's error has no
        effect, so it is not a parameter. */
    method Cleanup(restoreErr: Option<Error>)
      modifies this`actions
      ensures actions == old(actions) + CleanupActions(hasChannel, isTerminal, oldTerminalState)
    {
      if hasChannel {
        actions := actions + [SentQuit];
      }
      if isTerminal {
        var _ := RestoreTerminalState(restoreErr);
      }
    }

    /** Raw mode and then teardown: cleanup restores exactly the state the
        last successful makeRawTerminal saved, after the quit. */
    method RawThenCleanup(raw: TermState, restoreErr: Option<Error>)
      requires isTerminal
      modifies this`oldTerminalState, this`actions
      ensures actions == old(actions) + (if hasChannel then [SentQuit] else []) + [Restored(raw)]
    {
      var _ := MakeRawTerminal(Ok(raw));
      Cleanup(restoreErr);
    }
  }
}
