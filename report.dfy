/**
 * One card through the timer: the ignore check, the creation time, the
 * sorted `listMove`, the `times` dictionary and the output row, plus the
 * header line of the output file.
 */
module Report {
  import opened CardTypes
  import opened CardId
  import opened ListMove
  import opened TimeSort
  import opened Residency

  /** A list column of a row: the total `times[list]` in milliseconds (shown as `times[list]/3600000` hours), or `NA`. */
  datatype Cell = Total(millis: int) | NA

  /** One output line: card id, creation time (milliseconds), one cell per monitored list, quoted card name. */
  datatype Row = Row(cardId: string, created: int, cells: seq<Cell>, quotedName: string)

  /** `ignoreCards[card.id]` is truthy; the configuration's values are modelled by their truthiness. */
  predicate Ignored(ignoreCards: map<string, bool>, id: string) {
    id in ignoreCards && ignoreCards[id]
  }

  /** The moves of a card in sorted order: the creation entry and the actions' moves, stably sorted by time. */
  function CardMoves(initial: ListId, created: int, actions: seq<Action>): (moves: seq<Move>)
    ensures |moves| == 1 + CountMoves(actions)
    ensures SortedByTime(moves)
    ensures multiset(moves) == multiset([Move(initial, created)] + MovesOf(actions))
  {
    var s := [Move(initial, created)] + MovesOf(actions);
    StableSortSorted(s);
    MovesOfLength(actions);
    StableSort(s)
  }

  /** The `;`-prefixed names of the monitored lists, in configuration order. */
  function ListColumns(monitored: seq<MonitoredList>): (columns: string) {
    if monitored == [] then ""
    else ListColumns(monitored[..|monitored| - 1]) + ";" + monitored[|monitored| - 1].name
  }

  function CountSep(s: string): (n: nat) {
    if s == [] then 0 else CountSep(s[..|s| - 1]) + (if s[|s| - 1] == ';' then 1 else 0)
  }

  lemma {:induction false} CountSepAppend(a: string, b: string)
    ensures CountSep(a + b) == CountSep(a) + CountSep(b)
    decreases |b|
  {
    if b == [] {
      assert a + b == a;
    } else {
      assert (a + b)[..|a + b| - 1] == a + b[..|b| - 1];
      CountSepAppend(a, b[..|b| - 1]);
    }
  }

  /** The header line: the fixed columns around one column per monitored list, named as configured. */
  method Header(monitored: seq<MonitoredList>) returns (line: string)
    ensures line == "Card Id;Created date" + ListColumns(monitored) + ";Card name\n"
  {
    line := "Card Id" + ";" + "Created date";
    for k := 0 to |monitored|
      invariant line == "Card Id;Created date" + ListColumns(monitored[..k])
    {
      assert monitored[..k + 1][..k] == monitored[..k];
      line := line + ";" + monitored[k].name;
    }
    assert monitored[..|monitored|] == monitored;
    line := line + ";" + "Card name\n";
  }

  /**
   * When no list name contains the separator, the header has one separator
   * per monitored list plus two: the same |monitored| + 3 columns as a row.
   */
  lemma {:induction false} HeaderColumns(monitored: seq<MonitoredList>)
    requires forall i :: 0 <= i < |monitored| ==> ';' !in monitored[i].name
    ensures CountSep("Card Id;Created date" + ListColumns(monitored) + ";Card name\n") == |monitored| + 2
  {
    ListColumnsSep(monitored);
    CountSepAppend("Card Id;Created date", ListColumns(monitored));
    CountSepAppend("Card Id;Created date" + ListColumns(monitored), ";Card name\n");
    FixedColumnsSep();
  }

  lemma FixedColumnsSep()
    ensures CountSep("Card Id;Created date") == 1
    ensures CountSep(";Card name\n") == 1
  {
    var h := "Card Id;Created date";
    assert h == h[..7] + [';'] + h[8..];
    CountSepAppend(h[..7] + [';'], h[8..]);
    CountSepAppend(h[..7], [';']);
    NoSep(h[..7]);
    NoSep(h[8..]);
    var t := ";Card name\n";
    assert t == [';'] + t[1..];
    CountSepAppend([';'], t[1..]);
    NoSep(t[1..]);
    assert CountSep([';']) == CountSep([]) + 1;
  }

  lemma {:induction false} NoSep(s: string)
    requires ';' !in s
    ensures CountSep(s) == 0
  {
    if s != [] {
      NoSep(s[..|s| - 1]);
    }
  }

  lemma {:induction false} ListColumnsSep(monitored: seq<MonitoredList>)
    requires forall i :: 0 <= i < |monitored| ==> ';' !in monitored[i].name
    ensures CountSep(ListColumns(monitored)) == |monitored|
  {
    if monitored != [] {
      var n := |monitored| - 1;
      ListColumnsSep(monitored[..n]);
      CountSepAppend(ListColumns(monitored[..n]) + ";", monitored[n].name);
      CountSepAppend(ListColumns(monitored[..n]), ";");
      NoSep(monitored[n].name);
      assert CountSep(";") == CountSep([]) + 1;
    }
  }

  /**
   * The loop over the monitored lists that writes a row's list columns:
   * one cell per list in configuration order, the total when `times[list]`
   * is truthy (present and not 0), `NA` otherwise.
   */
  method ProjectCells(times: map<ListId, int>, monitored: seq<MonitoredList>) returns (cells: seq<Cell>)
    ensures |cells| == |monitored|
    ensures forall i :: 0 <= i < |monitored| ==>
      (cells[i] == NA <==> monitored[i].id !in times || times[monitored[i].id] == 0)
    ensures forall i :: 0 <= i < |monitored| && cells[i].Total? ==>
      monitored[i].id in times && cells[i].millis == times[monitored[i].id]
  {
    cells := [];
    for k := 0 to |monitored|
      invariant |cells| == k
      invariant forall i :: 0 <= i < k ==>
        (cells[i] == NA <==> monitored[i].id !in times || times[monitored[i].id] == 0)
      invariant forall i :: 0 <= i < k && cells[i].Total? ==>
        monitored[i].id in times && cells[i].millis == times[monitored[i].id]
    {
      var list := monitored[k].id;
      if list in times && times[list] != 0 {
        cells := cells + [Total(times[list])];
      } else {
        cells := cells + [NA];
      }
    }
  }

  /**
   * One card: nothing when it is ignored; otherwise its row, where the cell
   * of a monitored list is `NA` exactly when the card spent a total of 0 ms
   * in it (never entered, or entries summing to 0), and holds that total
   * otherwise. The synthetic first entry is in the first monitored list.
   */
  method ProcessCard(card: Card, actions: seq<Action>, monitored: seq<MonitoredList>,
                     ignoreCards: map<string, bool>, now: int) returns (row: Option<Row>)
    requires monitored != []
    requires !Ignored(ignoreCards, card.id) ==> HasHexPrefix(card.id)
    ensures row.None? <==> Ignored(ignoreCards, card.id)
    ensures row.Some? ==>
      var moves := CardMoves(monitored[0].id, CreatedTime(card.id), actions);
      && row.value.cardId == card.id
      && row.value.created == CreatedTime(card.id)
      && row.value.quotedName == "\"" + card.name + "\""
      && |row.value.cells| == |monitored|
      && forall i :: 0 <= i < |monitored| ==>
           (row.value.cells[i] == NA <==> ListTime(moves, now, monitored[i].id, |moves|) == 0)
           && (row.value.cells[i].Total? ==> row.value.cells[i].millis == ListTime(moves, now, monitored[i].id, |moves|))
  {
    if card.id in ignoreCards && ignoreCards[card.id] {
      return None;
    }
    var createdTime := CreatedTime(card.id);
    var listMove := BuildListMove(monitored[0].id, createdTime, actions);
    assert listMove == [Move(monitored[0].id, createdTime)] + MovesOf(actions);
    var sorted := new Move[|listMove|](i requires 0 <= i < |listMove| => listMove[i]);
    assert sorted[..] == listMove;
    SortByTime(sorted);
    var times := Aggregate(sorted, now);
    ghost var moves := sorted[..];
    assert moves == CardMoves(monitored[0].id, createdTime, actions);
    var cells := ProjectCells(times, monitored);
    forall i | 0 <= i < |monitored|
      ensures cells[i] == NA <==> ListTime(moves, now, monitored[i].id, |moves|) == 0
      ensures cells[i].Total? ==> cells[i].millis == ListTime(moves, now, monitored[i].id, |moves|)
    {
      TotalsAccumulate(moves, now, |moves|, monitored[i].id);
    }
    row := Some(Row(card.id, createdTime, cells, "\"" + card.name + "\""));
  }

  /** The earliest entry of a card comes first after the sort and is one of its entries. */
  lemma EarliestFirst(s: seq<Move>, r: seq<Move>)
    requires SortedByTime(r) && multiset(r) == multiset(s) && r != []
    ensures r[0] in s
    ensures forall m :: m in s ==> r[0].time <= m.time
  {
    assert r[0] in multiset(r);
    forall m | m in s ensures r[0].time <= m.time {
      assert m in multiset(r);
      var j :| 0 <= j < |r| && r[j] == m;
    }
  }

  /**
   * Partition law for a card: summed over the keys of `times`, the totals
   * equal `now` minus the card's earliest entry; when no move predates the
   * card's creation, that is `now` minus the creation time.
   */
  lemma CardPartition(initial: ListId, created: int, actions: seq<Action>, now: int)
    ensures var moves := CardMoves(initial, created, actions);
      && moves[0].time <= created
      && (forall i :: 0 <= i < |actions| && actions[i].listAfter.Some? ==> moves[0].time <= actions[i].date)
      && SumOver(Totals(moves, now), Visited(moves, |moves|)) == now - moves[0].time
    ensures (forall i :: 0 <= i < |actions| && actions[i].listAfter.Some? ==> actions[i].date >= created) ==>
      var moves := CardMoves(initial, created, actions);
      SumOver(Totals(moves, now), Visited(moves, |moves|)) == now - created
  {
    var s := [Move(initial, created)] + MovesOf(actions);
    var moves := CardMoves(initial, created, actions);
    EarliestFirst(s, moves);
    assert Move(initial, created) in s;
    forall i | 0 <= i < |actions| && actions[i].listAfter.Some?
      ensures moves[0].time <= actions[i].date
    {
      MovesOfMember(actions, i);
      assert Move(actions[i].listAfter.value, actions[i].date) in s;
    }
    Partition(moves, now);
    if forall i :: 0 <= i < |actions| && actions[i].listAfter.Some? ==> actions[i].date >= created {
      if moves[0] != Move(initial, created) {
        assert moves[0] in MovesOf(actions);
        MovesOfFrom(actions, moves[0]);
      }
    }
  }

  /** Every action carrying a `listAfter` contributes its entry. */
  lemma {:induction false} MovesOfMember(actions: seq<Action>, i: nat)
    requires i < |actions| && actions[i].listAfter.Some?
    ensures Move(actions[i].listAfter.value, actions[i].date) in MovesOf(actions)
  {
    var n := |actions| - 1;
    if i < n {
      MovesOfMember(actions[..n], i);
    }
  }

  /**
   * The worked example: created at T0 in L1, moved to L2 at T0+2h and back
   * to L1 at T0+5h, seen at T0+7h: 4 h in L1 (both stays summed), 3 h in
   * L2, and no time in a third list L3, whose cell is therefore `NA`.
   * An action without `listAfter` (at T0+3h) changes nothing.
   */
  lemma WorkedExample()
    ensures var t0 := 1511992124000;
      var hour := 3600000;
      var actions := [Action(Some("L2"), t0 + 2 * hour), Action(None, t0 + 3 * hour), Action(Some("L1"), t0 + 5 * hour)];
      var moves := CardMoves("L1", t0, actions);
      && Totals(moves, t0 + 7 * hour) == map["L1" := 4 * hour, "L2" := 3 * hour]
      && ListTime(moves, t0 + 7 * hour, "L3", |moves|) == 0
  {
    var t0 := 1511992124000;
    var hour := 3600000;
    WorkedExampleMoves(t0, hour);
    WorkedExampleTotals(t0, hour);
  }

  lemma WorkedExampleMoves(t0: int, hour: nat)
    requires hour > 0
    ensures var actions := [Action(Some("L2"), t0 + 2 * hour), Action(None, t0 + 3 * hour), Action(Some("L1"), t0 + 5 * hour)];
      CardMoves("L1", t0, actions) == [Move("L1", t0), Move("L2", t0 + 2 * hour), Move("L1", t0 + 5 * hour)]
  {
    var actions := [Action(Some("L2"), t0 + 2 * hour), Action(None, t0 + 3 * hour), Action(Some("L1"), t0 + 5 * hour)];
    assert actions[..2][..1] == actions[..1];
    assert actions[..2] == actions[..3][..2];
    assert MovesOf(actions[..1]) == [Move("L2", t0 + 2 * hour)];
    assert MovesOf(actions[..2]) == [Move("L2", t0 + 2 * hour)];
    assert MovesOf(actions) == [Move("L2", t0 + 2 * hour), Move("L1", t0 + 5 * hour)];
    var s := [Move("L1", t0), Move("L2", t0 + 2 * hour), Move("L1", t0 + 5 * hour)];
    assert [Move("L1", t0)] + MovesOf(actions) == s;
    StableSortOfSorted(s);
  }

  lemma WorkedExampleTotals(t0: int, hour: nat)
    requires hour > 0
    ensures var s := [Move("L1", t0), Move("L2", t0 + 2 * hour), Move("L1", t0 + 5 * hour)];
      && Totals(s, t0 + 7 * hour) == map["L1" := 4 * hour, "L2" := 3 * hour]
      && ListTime(s, t0 + 7 * hour, "L3", 3) == 0
  {
    var s := [Move("L1", t0), Move("L2", t0 + 2 * hour), Move("L1", t0 + 5 * hour)];
    var now := t0 + 7 * hour;
    assert TotalsUpTo(s, now, 1) == map["L1" := 2 * hour];
    assert TotalsUpTo(s, now, 2) == map["L1" := 2 * hour, "L2" := 3 * hour];
    assert ListTime(s, now, "L3", 1) == 0;
    assert ListTime(s, now, "L3", 2) == 0;
  }

  /**
   * The row depends on the order of the card's history when two moves share
   * a millisecond: the later of the two in the history gets the whole
   * segment. Created at 0 in L1, moved to L2 and to L3 both at 1000, seen
   * at 2000: L2 gets 0 ms (an `NA` cell) in one order and 1000 ms in the
   * other.
   */
  lemma TiedMovesFollowHistoryOrder()
    ensures var a1 := [Action(Some("L2"), 1000), Action(Some("L3"), 1000)];
      var a2 := [Action(Some("L3"), 1000), Action(Some("L2"), 1000)];
      && multiset(a1) == multiset(a2)
      && Totals(CardMoves("L1", 0, a1), 2000) == map["L1" := 1000, "L2" := 0, "L3" := 1000]
      && Totals(CardMoves("L1", 0, a2), 2000) == map["L1" := 1000, "L2" := 1000, "L3" := 0]
  {
    var a1 := [Action(Some("L2"), 1000), Action(Some("L3"), 1000)];
    var a2 := [Action(Some("L3"), 1000), Action(Some("L2"), 1000)];
    assert a2 == [a1[1]] + [a1[0]];
    assert a1 == [a1[0]] + [a1[1]];
    TiedMovesTotals("L2", "L3");
    TiedMovesTotals("L3", "L2");
  }

  lemma TiedMovesTotals(first: ListId, second: ListId)
    requires first != "L1" && second != "L1" && first != second
    ensures Totals(CardMoves("L1", 0, [Action(Some(first), 1000), Action(Some(second), 1000)]), 2000)
         == map["L1" := 1000, first := 0, second := 1000]
  {
    TiedMovesSorted(first, second);
    var s := [Move("L1", 0), Move(first, 1000), Move(second, 1000)];
    assert Duration(s, 2000, 0) == 1000 && Duration(s, 2000, 1) == 0 && Duration(s, 2000, 2) == 1000;
    var m1 := map["L1" := 1000];
    var m2 := m1[first := 0];
    assert TotalsUpTo(s, 2000, 1) == AddTo(map[], "L1", 1000) == m1;
    assert TotalsUpTo(s, 2000, 2) == AddTo(m1, first, 0) == m2;
    assert TotalsUpTo(s, 2000, 3) == AddTo(m2, second, 1000) == m2[second := 1000];
  }

  lemma TiedMovesSorted(first: ListId, second: ListId)
    ensures CardMoves("L1", 0, [Action(Some(first), 1000), Action(Some(second), 1000)])
         == [Move("L1", 0), Move(first, 1000), Move(second, 1000)]
  {
    var actions := [Action(Some(first), 1000), Action(Some(second), 1000)];
    assert actions[..1] == [Action(Some(first), 1000)];
    assert MovesOf(actions[..1]) == [Move(first, 1000)];
    assert MovesOf(actions) == [Move(first, 1000), Move(second, 1000)];
    var s := [Move("L1", 0), Move(first, 1000), Move(second, 1000)];
    assert [Move("L1", 0)] + MovesOf(actions) == s;
    StableSortOfSorted(s);
  }
}
