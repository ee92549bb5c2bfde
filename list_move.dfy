/**
 * Building `listMove`: one synthetic entry at the card's creation, then one
 * entry per action of the card's history that moved it into a list.
 */
module ListMove {
  import opened CardTypes

  /** The entries the actions contribute, in the order the history lists them. */
  function MovesOf(actions: seq<Action>): (moves: seq<Move>) {
    if actions == [] then []
    else
      var last := actions[|actions| - 1];
      MovesOf(actions[..|actions| - 1])
        + (if last.listAfter.Some? then [Move(last.listAfter.value, last.date)] else [])
  }

  /** The number of actions that carry a `listAfter`. */
  function CountMoves(actions: seq<Action>): (n: nat) {
    |set i | 0 <= i < |actions| && actions[i].listAfter.Some?|
  }

  /** Actions without a `listAfter` contribute nothing, those with one contribute one entry each, in order. */
  lemma {:induction false} MovesOfAppend(a: seq<Action>, b: seq<Action>)
    ensures MovesOf(a + b) == MovesOf(a) + MovesOf(b)
    decreases |b|
  {
    if b == [] {
      assert a + b == a;
    } else {
      assert (a + b)[..|a + b| - 1] == a + b[..|b| - 1];
      MovesOfAppend(a, b[..|b| - 1]);
    }
  }

  /** Every entry of `MovesOf(actions)` comes from an action with a `listAfter`, and their number is `CountMoves`. */
  lemma {:induction false} MovesOfLength(actions: seq<Action>)
    ensures |MovesOf(actions)| == CountMoves(actions)
  {
    if actions != [] {
      var n := |actions| - 1;
      MovesOfLength(actions[..n]);
      var before := set i | 0 <= i < n && actions[..n][i].listAfter.Some?;
      var after := set i | 0 <= i < |actions| && actions[i].listAfter.Some?;
      assert before == set i | 0 <= i < n && actions[i].listAfter.Some?;
      if actions[n].listAfter.Some? {
        assert after == before + {n};
      } else {
        assert after == before;
      }
    }
  }

  /** Each entry of `MovesOf(actions)` names a list some action moved the card into, at that action's date. */
  lemma {:induction false} MovesOfFrom(actions: seq<Action>, m: Move)
    requires m in MovesOf(actions)
    ensures exists i :: 0 <= i < |actions| && actions[i].listAfter == Some(m.list) && actions[i].date == m.time
  {
    var n := |actions| - 1;
    if m in MovesOf(actions[..n]) {
      MovesOfFrom(actions[..n], m);
      var i :| 0 <= i < n && actions[..n][i].listAfter == Some(m.list) && actions[..n][i].date == m.time;
      assert actions[i] == actions[..n][i];
    } else {
      assert actions[n].listAfter == Some(m.list) && actions[n].date == m.time;
    }
  }

  /**
   * `listMove = []`, the push of the creation entry, then one push per
   * action carrying `data.listAfter`.
   */
  method BuildListMove(initial: ListId, created: int, actions: seq<Action>) returns (listMove: seq<Move>)
    ensures |listMove| == 1 + CountMoves(actions)
    ensures listMove[0] == Move(initial, created)
    ensures listMove[1..] == MovesOf(actions)
  {
    listMove := [];
    listMove := listMove + [Move(initial, created)];
    for k := 0 to |actions|
      invariant listMove == [Move(initial, created)] + MovesOf(actions[..k])
    {
      var action := actions[k];
      assert actions[..k + 1][..k] == actions[..k];
      if action.listAfter.Some? {
        listMove := listMove + [Move(action.listAfter.value, action.date)];
      }
    }
    assert actions[..|actions|] == actions;
    MovesOfLength(actions);
  }
}
