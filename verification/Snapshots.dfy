/**
 The `turns` table (src/global_db.rs): monotonic upserts of cumulative usage snapshots,
 plain inserts and tool-result accumulation, over whole delivery histories.
 */
module Snapshots {
  import opened Common

  type u64 = x: int | 0 <= x < 0x1_0000_0000_0000_0000

  datatype Turn = Turn(
    messageId: string, projectHash: string, sessionId: string, model: string, timestamp: u64,
    input: u64, output: u64, cacheWrite: u64, cacheRead: u64, cost: real,
    category: string, toolNames: string, agent: string, credits: Option<u64>)

  datatype Kind = Droid | Copilot | Codex(legacyOutput: u64) | Augment

  /** One stored row; integers are SQLite's signed 64-bit ones. */
  datatype Row = Row(
    projectHash: string, sessionId: string, model: string, timestamp: int,
    input: int, output: int, cacheWrite: int, cacheRead: int, cost: real,
    category: string, toolNames: string, agent: string, credits: Option<int>,
    revision: int, toolResults: int)

  /** `as i64` keeps the bits, so the upper half of `u64` turns negative. */
  function AsI64(x: u64): int {
    if x < 0x8000_0000_0000_0000 then x else x - 0x1_0000_0000_0000_0000
  }

  /** The signed number with the same 64 bits. */
  lemma AsI64KeepsTheBits(x: u64)
    ensures -0x8000_0000_0000_0000 <= AsI64(x) < 0x8000_0000_0000_0000
    ensures (AsI64(x) - x) % 0x1_0000_0000_0000_0000 == 0
  {
    if x >= 0x8000_0000_0000_0000 {
      assert AsI64(x) - x == -0x1_0000_0000_0000_0000;
    }
  }

  function RowOf(t: Turn, revision: int): Row {
    Row(t.projectHash, t.sessionId, t.model, AsI64(t.timestamp),
        AsI64(t.input), AsI64(t.output), AsI64(t.cacheWrite), AsI64(t.cacheRead), t.cost,
        t.category, t.toolNames, t.agent,
        if t.credits.Some? then Some(AsI64(t.credits.value)) else None, revision, 0)
  }

  /** The row a snapshot proposes (`excluded`). */
  function Candidate(t: Turn, kind: Kind): Row {
    RowOf(t, if kind.Codex? then 1 else 0)
  }

  predicate CreditsRise(new_: Option<int>, stored: Option<int>) {
    new_.Some? && (stored == None || new_.value > stored.value)
  }

  /** The `WHERE` clause of the upsert. A comparison with SQL `NULL` is not true. */
  predicate Accepts(kind: Kind, c: Row, r: Row) {
    && c.agent == r.agent
    && c.input >= r.input && c.cacheWrite >= r.cacheWrite && c.cacheRead >= r.cacheRead
    && (c.credits == None || r.credits == None || c.credits.value >= r.credits.value)
    && (|| (&& c.revision == r.revision
            && c.output >= r.output
            && (|| c.input > r.input || c.output > r.output
                || c.cacheWrite > r.cacheWrite || c.cacheRead > r.cacheRead
                || CreditsRise(c.credits, r.credits)
                || (kind.Augment? && c.cost > r.cost)
                || (&& c.agent == "codex" && r.cost == 0.0 && c.cost > 0.0
                    && c.input == r.input && c.output == r.output
                    && c.cacheWrite == r.cacheWrite && c.cacheRead == r.cacheRead)))
        || (&& c.agent == "codex" && r.revision == 0 && c.revision == 1
            && kind.Codex? && AsI64(kind.legacyOutput) >= r.output))
  }

  /** The `SET` list of the upsert. */
  function Merge(kind: Kind, c: Row, r: Row): Row {
    c.(timestamp := if kind.Copilot? then c.timestamp else r.timestamp,
       credits := if c.credits.Some? then c.credits else r.credits,
       toolResults := r.toolResults)
  }

  function Upsert(row: Option<Row>, t: Turn, kind: Kind): Row {
    var c := Candidate(t, kind);
    if row == None then c
    else if Accepts(kind, c, row.value) then Merge(kind, c, row.value) else row.value
  }

  // -------------------------------------------------------------- the table

  class TurnsTable {
    var rows: map<string, Row>

    constructor ()
      ensures rows == map[]
    {
      rows := map[];
    }

    method UpsertMonotonicTurn(t: Turn, kind: Kind) returns (changed: bool)
      modifies this
      ensures rows == old(rows)[t.messageId := Upsert(Lookup(old(rows), t.messageId), t, kind)]
      ensures changed <==> (t.messageId in old(rows) ==>
                              Accepts(kind, Candidate(t, kind), old(rows)[t.messageId]))
    {
      var c := Candidate(t, kind);
      if t.messageId !in rows {
        rows := rows[t.messageId := c];
        return true;
      }
      var r := rows[t.messageId];
      changed := Accepts(kind, c, r);
      if changed {
        rows := rows[t.messageId := Merge(kind, c, r)];
      }
    }

    method InsertTurn(t: Turn) returns (inserted: bool)
      modifies this
      ensures inserted <==> t.messageId !in old(rows)
      ensures rows == if inserted then old(rows)[t.messageId := RowOf(t, 0)] else old(rows)
    {
      inserted := t.messageId !in rows;
      if inserted {
        rows := rows[t.messageId := RowOf(t, 0)];
      }
    }

    method AddToolResultTokens(messageId: string, tokens: u64) returns (changed: bool)
      modifies this
      ensures changed <==> tokens != 0 && messageId in old(rows)
      ensures rows == if !changed then old(rows) else
                      var r := old(rows)[messageId];
                      old(rows)[messageId := r.(toolResults := r.toolResults + AsI64(tokens))]
    {
      changed := tokens != 0 && messageId in rows;
      if changed {
        var r := rows[messageId];
        rows := rows[messageId := r.(toolResults := r.toolResults + AsI64(tokens))];
      }
    }
  }

  function Lookup(rows: map<string, Row>, id: string): Option<Row> {
    if id in rows then Some(rows[id]) else None
  }

  // -------------------------------------------------- histories of one row

  datatype Event =
    | Snapshot(turn: Turn, kind: Kind)
    | Insert(turn: Turn)
    | ToolResult(tokens: u64)

  function Deliver(row: Option<Row>, e: Event): Option<Row> {
    match e
    case Snapshot(t, kind) => Some(Upsert(row, t, kind))
    case Insert(t) => if row == None then Some(RowOf(t, 0)) else row
    case ToolResult(n) =>
      if row == None then None else Some(row.value.(toolResults := row.value.toolResults + AsI64(n)))
  }

  function History(events: seq<Event>): Option<Row> {
    if events == [] then None else Deliver(History(events[..|events| - 1]), events[|events| - 1])
  }

  /** What no delivery can undo. Output tokens may fall only at the one-time repair of a
      legacy Codex row, which moves the revision from 0 to 1. */
  predicate Grew(r: Row, r': Row) {
    && r.input <= r'.input && r.cacheWrite <= r'.cacheWrite && r.cacheRead <= r'.cacheRead
    && (r.credits.Some? ==> r'.credits.Some? && r.credits.value <= r'.credits.value)
    && r.agent == r'.agent
    && (if r.revision == r'.revision then r.output <= r'.output
        else r.revision == 0 && r'.revision == 1 && r.agent == "codex")
  }

  predicate GrewBy(r: Row, r': Row, tokens: int) {
    Grew(r, r') && r'.toolResults == r.toolResults + tokens
  }

  /** Over any history of snapshots, inserts and tool results, from any point to any later
      point. Since `Grew` allows only 0 to 1, the revision moves at most once. */
  lemma {:induction false} HistoriesGrow(events: seq<Event>, i: nat, j: nat)
    requires i <= j <= |events| && History(events[..i]).Some?
    ensures History(events[..j]).Some?
    ensures GrewBy(History(events[..i]).value, History(events[..j]).value, TokensIn(events[i..j]))
    decreases j
  {
    if i < j {
      HistoriesGrow(events, i, j - 1);
      assert events[..j][..j - 1] == events[..j - 1];
      OneMoreToken(events, i, j);
      KeepsGrowing(History(events[..i]).value, History(events[..j - 1]).value, events[j - 1],
                   TokensIn(events[i..j - 1]));
    } else {
      assert events[i..j] == [];
    }
  }

  lemma KeepsGrowing(r: Row, p: Row, e: Event, tokens: int)
    requires GrewBy(r, p, tokens)
    ensures Deliver(Some(p), e).Some?
    ensures GrewBy(r, Deliver(Some(p), e).value, tokens + if e.ToolResult? then AsI64(e.tokens) else 0)
  {
  }

  lemma OneMoreToken(events: seq<Event>, i: nat, j: nat)
    requires i < j <= |events|
    ensures TokensIn(events[i..j])
            == TokensIn(events[i..j - 1]) + if events[j - 1].ToolResult? then AsI64(events[j - 1].tokens) else 0
  {
    assert events[i..j][..j - 1 - i] == events[i..j - 1];
  }

  /** The tool-result tokens among `events`. */
  function TokensIn(events: seq<Event>): int {
    if events == [] then 0
    else
      var n := |events| - 1;
      TokensIn(events[..n]) + if events[n].ToolResult? then AsI64(events[n].tokens) else 0
  }

  /** The first snapshot or insert, which makes the row; before it nothing is stored. */
  function FirstTurn(events: seq<Event>): (i: nat)
    ensures i <= |events| && (i < |events| ==> !events[i].ToolResult?)
    ensures forall j :: 0 <= j < i ==> events[j].ToolResult?
  {
    if events == [] || !events[0].ToolResult? then 0 else 1 + FirstTurn(events[1..])
  }

  /** The stored tool-result size is that of the results delivered since the row was made. */
  lemma {:induction false} ToolResultsAddUp(events: seq<Event>)
    ensures History(events).Some? <==> FirstTurn(events) < |events|
    ensures History(events).Some? ==>
              History(events).value.toolResults == TokensIn(events[FirstTurn(events)..])
    decreases |events|
  {
    if events != [] {
      var n := |events| - 1;
      ToolResultsAddUp(events[..n]);
      FirstTurnGrows(events);
      var i := FirstTurn(events);
      if i < n {
        OneMoreToken(events, i, n + 1);
        assert events[i..n + 1] == events[i..] && events[i..n] == events[..n][i..];
      } else if i == n {
        assert events[i..][..0] == [];
      }
    }
  }

  lemma FirstTurnGrows(events: seq<Event>)
    requires events != []
    ensures var n := |events| - 1;
            FirstTurn(events)
            == if FirstTurn(events[..n]) < n then FirstTurn(events[..n]) else if events[n].ToolResult? then n + 1 else n
  {
    var n := |events| - 1;
    var i, j := FirstTurn(events), FirstTurn(events[..n]);
    assert forall k :: 0 <= k < n ==> events[..n][k] == events[k];
    if j < n {
      assert i >= j;
    }
  }

  // ---------------------------------------------- which turn a stored row shows

  /** The guard, read off the delivered turn. */
  predicate Moves(t: Turn, kind: Kind, r: Row) {
    var input, output := AsI64(t.input), AsI64(t.output);
    var cacheWrite, cacheRead := AsI64(t.cacheWrite), AsI64(t.cacheRead);
    var rises := t.credits.Some? && (r.credits == None || AsI64(t.credits.value) > r.credits.value);
    var codex := t.agent == "codex";
    && t.agent == r.agent && input >= r.input && cacheWrite >= r.cacheWrite && cacheRead >= r.cacheRead
    && (t.credits.Some? && r.credits.Some? ==> AsI64(t.credits.value) >= r.credits.value)
    && (|| (&& (if kind.Codex? then 1 else 0) == r.revision && output >= r.output
            && (|| input > r.input || output > r.output || cacheWrite > r.cacheWrite || cacheRead > r.cacheRead
                || rises || (kind.Augment? && t.cost > r.cost)
                || (codex && r.cost == 0.0 && t.cost > 0.0 && input == r.input && output == r.output
                    && cacheWrite == r.cacheWrite && cacheRead == r.cacheRead)))
        || (codex && r.revision == 0 && kind.Codex? && AsI64(kind.legacyOutput) >= r.output))
  }

  /** The last event moved the row, made by an earlier one. */
  predicate MovedLast(events: seq<Event>)
    requires events != []
  {
    var e, row := events[|events| - 1], History(events[..|events| - 1]);
    e.Snapshot? && row.Some? && Moves(e.turn, e.kind, row.value)
  }

  /** The event whose turn the row shows: the last that moved it, else the one that made it. */
  function ShownAt(events: seq<Event>): (i: nat)
    requires FirstTurn(events) < |events|
    ensures i < |events| && !events[i].ToolResult?
  {
    var n := |events| - 1;
    if FirstTurn(events) == n then n
    else
      EarlierStart(events);
      if MovedLast(events) then n else ShownAt(events[..n])
  }

  lemma EarlierStart(events: seq<Event>)
    requires FirstTurn(events) < |events| - 1
    ensures FirstTurn(events[..|events| - 1]) == FirstTurn(events)
  {
    var n := |events| - 1;
    assert forall k :: 0 <= k < n ==> events[..n][k] == events[k];
  }

  /** The event whose time it shows: of Copilot's the last that moved it, else the first. */
  function StampedAt(events: seq<Event>): (i: nat)
    requires FirstTurn(events) < |events|
    ensures i < |events| && !events[i].ToolResult?
  {
    var n := |events| - 1;
    if FirstTurn(events) == n then n
    else
      EarlierStart(events);
      if ShownAt(events) == n && events[n].kind.Copilot? then n else StampedAt(events[..n])
  }

  /** The event whose credits it shows: the last that made or moved it and had any. */
  function CreditedAt(events: seq<Event>): (i: Option<nat>)
    requires FirstTurn(events) < |events|
    ensures i.Some? ==> i.value < |events| && !events[i.value].ToolResult? && events[i.value].turn.credits.Some?
  {
    var n := |events| - 1;
    if ShownAt(events) == n && events[n].turn.credits.Some? then Some(n)
    else if FirstTurn(events) == n then None
    else
      EarlierStart(events);
      CreditedAt(events[..n])
  }

  /** Field by field, what a row shows of the turn of `e`, a time and credits. */
  predicate ShowsTurn(r: Row, e: Event, time: u64, credits: Option<u64>)
    requires !e.ToolResult?
  {
    && r.projectHash == e.turn.projectHash && r.sessionId == e.turn.sessionId && r.model == e.turn.model
    && r.input == AsI64(e.turn.input) && r.output == AsI64(e.turn.output)
    && r.cacheWrite == AsI64(e.turn.cacheWrite) && r.cacheRead == AsI64(e.turn.cacheRead)
    && r.cost == e.turn.cost && r.category == e.turn.category && r.toolNames == e.turn.toolNames
    && r.agent == e.turn.agent && r.revision == (if e.Snapshot? && e.kind.Codex? then 1 else 0)
    && r.timestamp == AsI64(time)
    && r.credits == (if credits.Some? then Some(AsI64(credits.value)) else None)
  }

  function TurnAt(events: seq<Event>, i: nat): Turn
    requires i < |events| && !events[i].ToolResult?
  {
    events[i].turn
  }

  function CreditsAt(events: seq<Event>): Option<u64>
    requires FirstTurn(events) < |events|
  {
    var i := CreditedAt(events);
    if i.Some? then TurnAt(events, i.value).credits else None
  }

  /** Whose deliveries a stored row shows. */
  predicate Shows(r: Row, events: seq<Event>)
    requires FirstTurn(events) < |events|
  {
    ShowsTurn(r, events[ShownAt(events)], TurnAt(events, StampedAt(events)).timestamp, CreditsAt(events))
  }

  lemma MovesIff(t: Turn, kind: Kind, r: Row)
    ensures Moves(t, kind, r) <==> Accepts(kind, Candidate(t, kind), r)
  {
  }

  /** Over every history a stored row shows what was delivered. */
  lemma {:induction false} RowsShowDeliveries(events: seq<Event>)
    requires FirstTurn(events) < |events|
    ensures History(events).Some? && Shows(History(events).value, events)
    decreases |events|
  {
    var n := |events| - 1;
    ToolResultsAddUp(events);
    ToolResultsAddUp(events[..n]);
    if FirstTurn(events) < n {
      EarlierStart(events);
      RowsShowDeliveries(events[..n]);
      NextRowShows(events);
    } else {
      NothingBefore(events);
      FirstRowShows(events);
    }
  }

  lemma FirstRowShows(events: seq<Event>)
    requires FirstTurn(events) == |events| - 1 && History(events[..|events| - 1]) == None
    ensures History(events).Some? && Shows(History(events).value, events)
  {
    var n := |events| - 1;
    assert ShownAt(events) == n && StampedAt(events) == n;
    assert CreditsAt(events) == events[n].turn.credits;
  }

  lemma ShownAfter(events: seq<Event>)
    requires FirstTurn(events) < |events| - 1
    ensures var n := |events| - 1;
            FirstTurn(events[..n]) < n && ShownAt(events) == if MovedLast(events) then n else ShownAt(events[..n])
  {
    EarlierStart(events);
  }

  lemma StampAfter(events: seq<Event>)
    requires FirstTurn(events) < |events| - 1
    ensures var n := |events| - 1;
            FirstTurn(events[..n]) < n &&
            TurnAt(events, StampedAt(events)).timestamp ==
            if MovedLast(events) && events[n].kind.Copilot? then events[n].turn.timestamp
            else TurnAt(events[..n], StampedAt(events[..n])).timestamp
  {
    EarlierStart(events);
    ShownAfter(events);
  }

  lemma CreditsAfter(events: seq<Event>)
    requires FirstTurn(events) < |events| - 1
    ensures var n := |events| - 1;
            FirstTurn(events[..n]) < n &&
            CreditsAt(events) == if MovedLast(events) && events[n].turn.credits.Some? then events[n].turn.credits
                                 else CreditsAt(events[..n])
  {
    EarlierStart(events);
    ShownAfter(events);
  }

  lemma MovedRowShows(r: Row, e: Event, shown: Event, time: u64, credits: Option<u64>)
    requires !shown.ToolResult? && ShowsTurn(r, shown, time, credits)
    requires e.Snapshot? && Moves(e.turn, e.kind, r)
    ensures ShowsTurn(Upsert(Some(r), e.turn, e.kind), e, if e.kind.Copilot? then e.turn.timestamp else time,
                      if e.turn.credits.Some? then e.turn.credits else credits)
  {
    MovesIff(e.turn, e.kind, r);
  }

  lemma KeptRowShows(r: Row, e: Event, shown: Event, time: u64, credits: Option<u64>)
    requires !shown.ToolResult? && ShowsTurn(r, shown, time, credits)
    requires !(e.Snapshot? && Moves(e.turn, e.kind, r))
    ensures Deliver(Some(r), e).Some? && ShowsTurn(Deliver(Some(r), e).value, shown, time, credits)
  {
    if e.Snapshot? { MovesIff(e.turn, e.kind, r); }
  }

  lemma NextRowShows(events: seq<Event>)
    requires FirstTurn(events) < |events| - 1 && FirstTurn(events[..|events| - 1]) < |events| - 1
    requires History(events[..|events| - 1]).Some?
    requires Shows(History(events[..|events| - 1]).value, events[..|events| - 1])
    ensures History(events).Some? && Shows(History(events).value, events)
  {
    var n := |events| - 1;
    var before := events[..n];
    var r, e := History(before).value, events[n];
    var shown, time, credits := before[ShownAt(before)], TurnAt(before, StampedAt(before)).timestamp, CreditsAt(before);
    ShownAfter(events);
    StampAfter(events);
    CreditsAfter(events);
    if MovedLast(events) {
      MovedRowShows(r, e, shown, time, credits);
    } else {
      KeptRowShows(r, e, shown, time, credits);
    }
  }

  lemma NothingBefore(events: seq<Event>)
    requires events != [] && FirstTurn(events) == |events| - 1
    ensures FirstTurn(events[..|events| - 1]) == |events| - 1
  {
    var n := |events| - 1;
    assert forall k :: 0 <= k < n ==> events[..n][k] == events[k];
  }

  /** Delivering an accepted snapshot again changes nothing and reports no change. */
  lemma ReplayIsRefused(kind: Kind, t: Turn, r: Row)
    requires Accepts(kind, Candidate(t, kind), r)
    ensures !Accepts(kind, Candidate(t, kind), Merge(kind, Candidate(t, kind), r))
    ensures Upsert(Some(Upsert(Some(r), t, kind)), t, kind) == Upsert(Some(r), t, kind)
  {
  }

  /** A strict order every accepted snapshot climbs. */
  predicate Above(r: Row, r': Row) {
    r.revision < r'.revision
    || (&& r.revision == r'.revision
        && r.input <= r'.input && r.output <= r'.output
        && r.cacheWrite <= r'.cacheWrite && r.cacheRead <= r'.cacheRead
        && (r.credits.Some? ==> r'.credits.Some? && r.credits.value <= r'.credits.value)
        && (SameUsage(r, r') ==> r.cost < r'.cost))
  }

  predicate SameUsage(r: Row, r': Row) {
    r.input == r'.input && r.output == r'.output && r.cacheWrite == r'.cacheWrite
    && r.cacheRead == r'.cacheRead && r.credits == r'.credits
  }

  lemma AboveIsStrictOrder(a: Row, b: Row, c: Row)
    ensures !Above(a, a)
    ensures Above(a, b) && Above(b, c) ==> Above(a, c)
  {
  }

  lemma AcceptedClimbs(kind: Kind, c: Row, r: Row)
    requires Accepts(kind, c, r)
    ensures Above(r, Merge(kind, c, r))
  {
  }

  /** How many snapshots of `events` from position `i` on changed an existing row. */
  function Updates(events: seq<Event>, i: nat): nat
    requires i <= |events|
    decreases |events|
  {
    if i == |events| then 0
    else
      var n := |events| - 1;
      var row := History(events[..n]);
      Updates(events[..n], i) +
      if row.Some? && events[n].Snapshot?
         && Accepts(events[n].kind, Candidate(events[n].turn, events[n].kind), row.value) then 1 else 0
  }

  /** `r'` is above `r` after some updates, and differs in its tool results alone after none. */
  predicate Climbed(r: Row, r': Row, updates: nat) {
    if updates > 0 then Above(r, r') else r' == r.(toolResults := r'.toolResults)
  }

  lemma ClimbsOrStays(r: Row, p: Row, e: Event, updates: nat)
    requires Climbed(r, p, updates)
    ensures Deliver(Some(p), e).Some?
    ensures var moved := e.Snapshot? && Accepts(e.kind, Candidate(e.turn, e.kind), p);
            Climbed(r, Deliver(Some(p), e).value, updates + if moved then 1 else 0)
  {
    if e.Snapshot? && Accepts(e.kind, Candidate(e.turn, e.kind), p) {
      AcceptedClimbs(e.kind, Candidate(e.turn, e.kind), p);
      AboveIsStrictOrder(r, p, Deliver(Some(p), e).value);
    }
  }

  /** No history ever brings a row back to usage and cost it had before an update. */
  lemma {:induction false} HistoriesNeverReturn(events: seq<Event>, i: nat)
    requires i <= |events| && History(events[..i]).Some?
    ensures History(events).Some?
    ensures Climbed(History(events[..i]).value, History(events).value, Updates(events, i))
    decreases |events|
  {
    assert events[..|events|] == events;
    if i < |events| {
      var n := |events| - 1;
      assert events[..n][..i] == events[..i];
      HistoriesNeverReturn(events[..n], i);
      ClimbsOrStays(History(events[..i]).value, History(events[..n]).value, events[n], Updates(events[..n], i));
    }
  }

  // ------------------------------------------------ the documented triggers

  /** No counter but the output falls, and known credits do not. */
  predicate NoLess(c: Row, r: Row) {
    c.input >= r.input && c.cacheWrite >= r.cacheWrite && c.cacheRead >= r.cacheRead
    && (c.credits == None || r.credits == None || c.credits.value >= r.credits.value)
  }

  predicate SameCounters(a: Row, b: Row) {
    a.input == b.input && a.output == b.output && a.cacheWrite == b.cacheWrite && a.cacheRead == b.cacheRead
  }

  predicate CounterOrCreditRises(c: Row, r: Row) {
    c.input > r.input || c.output > r.output || c.cacheWrite > r.cacheWrite || c.cacheRead > r.cacheRead
    || CreditsRise(c.credits, r.credits)
  }

  /** The documented rule: nothing falls and a counter or credit rises. */
  predicate Promised(c: Row, r: Row) {
    NoLess(c, r) && c.output >= r.output && CounterOrCreditRises(c, r)
  }

  predicate AugmentCostRises(kind: Kind, c: Row, r: Row) {
    kind.Augment? && c.cost > r.cost
  }

  /** A Codex row priced for the first time, all counters equal. */
  predicate CodexCostAppears(c: Row, r: Row) {
    c.agent == "codex" && r.cost == 0.0 && c.cost > 0.0 && SameCounters(c, r)
  }

  /** The replacement of a Codex row of the old counting by its native snapshot. */
  predicate CodexRepair(kind: Kind, c: Row, r: Row) {
    c.agent == "codex" && r.revision == 0 && c.revision == 1 && kind.Codex? && AsI64(kind.legacyOutput) >= r.output
  }

  /** All that moves an existing row: under the guard, a rising counter or credit, a rising
      Augment cost, a first Codex cost, or the Codex repair. */
  lemma TriggersExactly(kind: Kind, c: Row, r: Row)
    ensures Accepts(kind, c, r) <==>
            && c.agent == r.agent && NoLess(c, r)
            && (CodexRepair(kind, c, r)
                || (&& c.revision == r.revision && c.output >= r.output
                    && (CounterOrCreditRises(c, r) || AugmentCostRises(kind, c, r) || CodexCostAppears(c, r))))
  {
  }

  /** The upsert moves an existing row exactly when the documentation says so, if and only
      if: where something rises and nothing falls, the agent is the row's and the revisions
      are equal or make the repair; elsewhere, none of the three other triggers applies. */
  lemma FollowsItsDocumentationIff(kind: Kind, c: Row, r: Row)
    ensures (Accepts(kind, c, r) <==> Promised(c, r)) <==>
            if Promised(c, r) then c.agent == r.agent && (c.revision == r.revision || CodexRepair(kind, c, r))
            else !(&& c.agent == r.agent && NoLess(c, r)
                   && (CodexRepair(kind, c, r)
                       || (&& c.revision == r.revision && c.output == r.output
                           && (AugmentCostRises(kind, c, r) || CodexCostAppears(c, r)))))
  {
    TriggersExactly(kind, c, r);
  }

  /** One input for each undocumented trigger; in all three no counter and no credit moves. */
  lemma UndocumentedTriggers(r: Row)
    requires r.cost == 0.0 && r.output == 0
    ensures Accepts(Augment, r.(cost := 1.0), r) && !Promised(r.(cost := 1.0), r)
    ensures r.agent == "codex" && r.revision == 1 ==>
              Accepts(Codex(0), r.(cost := 1.0), r) && !Promised(r.(cost := 1.0), r)
    ensures r.agent == "codex" && r.revision == 0 ==>
              Accepts(Codex(0), r.(revision := 1), r) && !Promised(r.(revision := 1), r)
  {
  }

  // ------------------------------------------------------------ convergence

  /** `b` is a later cumulative snapshot than `a`. Credits may come or go, but only where a
      counter rises. */
  predicate Later(kind: Kind, a: Row, b: Row) {
    && a.agent == b.agent
    && a.input <= b.input && a.output <= b.output
    && a.cacheWrite <= b.cacheWrite && a.cacheRead <= b.cacheRead
    && (a.credits.Some? && b.credits.Some? ==> a.credits.value <= b.credits.value)
    && (SameCounters(a, b) ==> a.credits.Some? == b.credits.Some?)
    && (SameUsage(a, b) ==> kind.Augment? && a.cost < b.cost)
  }

  ghost predicate Chain(kind: Kind, ts: seq<Turn>) {
    forall i, j :: 0 <= i < j < |ts| ==> Later(kind, Candidate(ts[i], kind), Candidate(ts[j], kind))
  }

  predicate InRange(ds: seq<nat>, n: nat) {
    forall k :: 0 <= k < |ds| ==> ds[k] < n
  }

  function Max(ds: seq<nat>): (m: nat)
    requires ds != []
    ensures forall k :: 0 <= k < |ds| ==> ds[k] <= m
    ensures exists k :: 0 <= k < |ds| && ds[k] == m
  {
    var n := |ds| - 1;
    if n == 0 then ds[0]
    else
      var m := Max(ds[..n]);
      assert forall k :: 0 <= k < n ==> ds[..n][k] == ds[k];
      if ds[n] > m then ds[n] else m
  }

  function Deliveries(kind: Kind, ts: seq<Turn>, ds: seq<nat>): (es: seq<Event>)
    requires InRange(ds, |ts|)
    ensures |es| == |ds|
  {
    seq(|ds|, k requires 0 <= k < |ds| => Snapshot(ts[ds[k]], kind))
  }

  function CreditsOf(t: Turn): Option<int> {
    if t.credits.Some? then Some(AsI64(t.credits.value)) else None
  }

  /** The credits kept after the deliveries `ds`: those of the last delivery that was the
      largest so far and carried any. */
  function Kept(ts: seq<Turn>, ds: seq<nat>): Option<int>
    requires ds != [] && InRange(ds, |ts|)
    decreases |ds|
  {
    var n := |ds| - 1;
    var c := CreditsOf(ts[ds[n]]);
    if n == 0 then c
    else
      var before := Kept(ts, ds[..n]);
      if ds[n] > Max(ds[..n]) && c.Some? then c else before
  }

  /** The row after the deliveries `ds`, for given credits: otherwise the largest snapshot,
      with one timestamp. */
  function Top(kind: Kind, ts: seq<Turn>, ds: seq<nat>, credits: Option<int>): Row
    requires ds != [] && InRange(ds, |ts|)
  {
    var top := Candidate(ts[Max(ds)], kind);
    top.(timestamp := if kind.Copilot? then top.timestamp else AsI64(ts[ds[0]].timestamp), credits := credits)
  }

  /** `credits` may be stored beside the largest snapshot `m`: they are its own, or, when it
      has none, those of a smaller one or none. */
  ghost predicate StoredBeside(ts: seq<Turn>, m: nat, credits: Option<int>)
    requires m < |ts|
  {
    if CreditsOf(ts[m]).Some? then credits == CreditsOf(ts[m])
    else credits.Some? ==> exists j :: 0 <= j < m && CreditsOf(ts[j]) == credits
  }

  lemma {:induction false} KeptIsStored(ts: seq<Turn>, ds: seq<nat>)
    requires ds != [] && InRange(ds, |ts|)
    ensures StoredBeside(ts, Max(ds), Kept(ts, ds))
    decreases |ds|
  {
    var n := |ds| - 1;
    if n > 0 {
      KeptIsStored(ts, ds[..n]);
      var m, before := Max(ds[..n]), Kept(ts, ds[..n]);
      if ds[n] > m && CreditsOf(ts[ds[n]]) == None && before.Some? {
        if CreditsOf(ts[m]).Some? {
          assert CreditsOf(ts[m]) == before;
        }
      }
    }
  }

  /** A row holding snapshot `a` with stored credits moves to a later snapshot. */
  lemma LaterMoves(kind: Kind, a: Row, c: Row, x: int, credits: Option<int>)
    requires Later(kind, a, c) && a.revision == c.revision
    requires a.credits.Some? ==> credits == a.credits
    requires credits.Some? && c.credits.Some? ==> credits.value <= c.credits.value
    ensures Accepts(kind, c, a.(timestamp := x, credits := credits))
  {
  }

  /** ... and ignores an earlier or equal one. */
  lemma EarlierIsIgnored(kind: Kind, a: Row, c: Row, x: int, credits: Option<int>)
    requires (Later(kind, c, a) || c == a) && a.revision == c.revision && !(kind.Codex? && a.revision == 0)
    requires a.credits.Some? ==> credits == a.credits
    ensures !Accepts(kind, c, a.(timestamp := x, credits := credits))
  {
  }

  lemma OneMore(ts: seq<Turn>, ds: seq<nat>, d: nat)
    requires ds != [] && InRange(ds, |ts|) && d < |ts|
    ensures InRange(ds + [d], |ts|) && (ds + [d])[0] == ds[0]
    ensures Max(ds + [d]) == if d > Max(ds) then d else Max(ds)
    ensures Kept(ts, ds + [d]) == if d > Max(ds) && CreditsOf(ts[d]).Some? then CreditsOf(ts[d]) else Kept(ts, ds)
  {
    assert (ds + [d])[..|ds|] == ds;
  }

  /** A larger snapshot's own credits are no less than those kept. */
  lemma KeptAreNoMore(kind: Kind, ts: seq<Turn>, m: nat, d: nat, credits: Option<int>)
    requires Chain(kind, ts) && m < d < |ts| && StoredBeside(ts, m, credits)
    ensures credits.Some? && CreditsOf(ts[d]).Some? ==> credits.value <= CreditsOf(ts[d]).value
  {
    assert Later(kind, Candidate(ts[m], kind), Candidate(ts[d], kind));
    if credits.Some? && CreditsOf(ts[m]) == None {
      var j :| 0 <= j < m && CreditsOf(ts[j]) == credits;
      assert Later(kind, Candidate(ts[j], kind), Candidate(ts[d], kind));
    }
  }

  lemma OneMoreDelivery(kind: Kind, ts: seq<Turn>, ds: seq<nat>, d: nat)
    requires Chain(kind, ts) && ds != [] && InRange(ds, |ts|) && d < |ts|
    ensures InRange(ds + [d], |ts|)
    ensures Upsert(Some(Top(kind, ts, ds, Kept(ts, ds))), ts[d], kind) == Top(kind, ts, ds + [d], Kept(ts, ds + [d]))
  {
    var m, credits := Max(ds), Kept(ts, ds);
    OneMore(ts, ds, d);
    KeptIsStored(ts, ds);
    var x := Top(kind, ts, ds, credits).timestamp;
    if d > m {
      KeptAreNoMore(kind, ts, m, d, credits);
      LaterMoves(kind, Candidate(ts[m], kind), Candidate(ts[d], kind), x, credits);
    } else {
      EarlierIsIgnored(kind, Candidate(ts[m], kind), Candidate(ts[d], kind), x, credits);
    }
  }

  lemma DeliveriesAppend(kind: Kind, ts: seq<Turn>, ds: seq<nat>, d: nat)
    requires InRange(ds, |ts|) && d < |ts|
    ensures InRange(ds + [d], |ts|)
    ensures History(Deliveries(kind, ts, ds + [d])) == Deliver(History(Deliveries(kind, ts, ds)), Snapshot(ts[d], kind))
  {
    var es := Deliveries(kind, ts, ds + [d]);
    assert es[..|ds|] == Deliveries(kind, ts, ds);
  }

  /** Snapshots of one growing session may arrive in any order, with duplicates and gaps:
      the row ends as the largest one delivered, but for two things that remember the
      order. The timestamp is the first arrival's, or the largest checkpoint's for Copilot;
      the credits are those kept. */
  lemma {:induction false} AnyOrderEndsOnTheTop(kind: Kind, ts: seq<Turn>, ds: seq<nat>)
    requires Chain(kind, ts) && ds != [] && InRange(ds, |ts|)
    ensures History(Deliveries(kind, ts, ds)) == Some(Top(kind, ts, ds, Kept(ts, ds)))
    decreases |ds|
  {
    var n := |ds| - 1;
    assert ds == ds[..n] + [ds[n]];
    DeliveriesAppend(kind, ts, ds[..n], ds[n]);
    if n > 0 {
      AnyOrderEndsOnTheTop(kind, ts, ds[..n]);
      OneMoreDelivery(kind, ts, ds[..n], ds[n]);
    }
  }

  /** The largest delivered snapshot carries credits, or none of the delivered ones does. */
  predicate CreditsSettled(ts: seq<Turn>, ds: seq<nat>)
    requires ds != [] && InRange(ds, |ts|)
  {
    ts[Max(ds)].credits.Some? || forall k :: 0 <= k < |ds| ==> ts[ds[k]].credits == None
  }

  lemma {:induction false} KeptWithoutCredits(ts: seq<Turn>, ds: seq<nat>)
    requires ds != [] && InRange(ds, |ts|) && forall k :: 0 <= k < |ds| ==> ts[ds[k]].credits == None
    ensures Kept(ts, ds) == None
    decreases |ds|
  {
    if |ds| > 1 {
      KeptWithoutCredits(ts, ds[..|ds| - 1]);
    }
  }

  /** Then the whole row is the largest snapshot, whatever the order. */
  lemma AnyOrderEndsOnTheLargest(kind: Kind, ts: seq<Turn>, ds: seq<nat>)
    requires Chain(kind, ts) && ds != [] && InRange(ds, |ts|) && CreditsSettled(ts, ds)
    ensures History(Deliveries(kind, ts, ds)) == Some(Top(kind, ts, ds, CreditsOf(ts[Max(ds)])))
  {
    AnyOrderEndsOnTheTop(kind, ts, ds);
    KeptIsStored(ts, ds);
    if ts[Max(ds)].credits == None {
      KeptWithoutCredits(ts, ds);
    }
  }

  /** The same snapshots delivered, possibly in another order and with other repeats. */
  ghost predicate SameDeliveries(ds: seq<nat>, es: seq<nat>) {
    forall d :: d in ds <==> d in es
  }

  lemma SameMax(ds: seq<nat>, es: seq<nat>)
    requires ds != [] && es != [] && SameDeliveries(ds, es)
    ensures Max(ds) == Max(es)
  {
    assert Max(ds) in ds && Max(es) in es;
  }

  /** After the largest, nothing changes the credits any more. */
  lemma {:induction false} KeptAfterTheTop(ts: seq<Turn>, first: seq<nat>, ds: seq<nat>)
    requires first != [] && InRange(first, |ts|) && InRange(ds, |ts|)
    requires forall k :: 0 <= k < |ds| ==> ds[k] <= Max(first)
    ensures InRange(first + ds, |ts|) && Max(first + ds) == Max(first)
    ensures Kept(ts, first + ds) == Kept(ts, first)
    decreases |ds|
  {
    if ds == [] {
      assert first + ds == first;
    } else {
      var n := |ds| - 1;
      assert first + ds == (first + ds[..n]) + [ds[n]];
      KeptAfterTheTop(ts, first, ds[..n]);
      OneMore(ts, first + ds[..n], ds[n]);
    }
  }

  /** Every order of the same deliveries stores the same credits. */
  ghost predicate OrderIndependent(kind: Kind, ts: seq<Turn>, ds: seq<nat>)
    requires ds != [] && InRange(ds, |ts|)
  {
    forall es | es != [] && InRange(es, |ts|) && SameDeliveries(ds, es) ::
      History(Deliveries(kind, ts, es)).Some?
      && History(Deliveries(kind, ts, es)).value.credits == CreditsOf(ts[Max(ds)])
  }

  lemma PairOf(ts: seq<Turn>, j: nat, m: nat)
    requires j < m < |ts|
    ensures InRange([j, m], |ts|) && Max([j, m]) == m
    ensures Kept(ts, [j, m]) == if CreditsOf(ts[m]).Some? then CreditsOf(ts[m]) else CreditsOf(ts[j])
  {
    assert [j, m] == [j] + [m];
    OneMore(ts, [j], m);
  }

  /** Two orders that store different credits, when the largest snapshot has none and a
      smaller one has some: largest first, and smaller one first. */
  lemma TwoOrders(kind: Kind, ts: seq<Turn>, ds: seq<nat>, k: nat) returns (es: seq<nat>, fs: seq<nat>)
    requires Chain(kind, ts) && ds != [] && InRange(ds, |ts|) && k < |ds|
    requires ts[Max(ds)].credits == None && ts[ds[k]].credits.Some?
    ensures InRange(es, |ts|) && SameDeliveries(ds, es) && es != []
    ensures InRange(fs, |ts|) && SameDeliveries(ds, fs) && fs != []
    ensures History(Deliveries(kind, ts, es)).Some? && History(Deliveries(kind, ts, es)).value.credits == None
    ensures History(Deliveries(kind, ts, fs)).Some?
    ensures History(Deliveries(kind, ts, fs)).value.credits == CreditsOf(ts[ds[k]])
  {
    var m, j := Max(ds), ds[k];
    assert m in ds && j in ds && j != m;
    es, fs := [m] + ds, [j, m] + ds;
    PairOf(ts, j, m);
    KeptAfterTheTop(ts, [m], ds);
    KeptAfterTheTop(ts, [j, m], ds);
    AnyOrderEndsOnTheTop(kind, ts, es);
    AnyOrderEndsOnTheTop(kind, ts, fs);
  }

  /** The stored credits do not depend on the delivery order, and are the largest snapshot's,
      if and only if that snapshot carries credits or no delivered one does. */
  lemma CreditsSettledIff(kind: Kind, ts: seq<Turn>, ds: seq<nat>)
    requires Chain(kind, ts) && ds != [] && InRange(ds, |ts|)
    ensures OrderIndependent(kind, ts, ds) <==> CreditsSettled(ts, ds)
    ensures !CreditsSettled(ts, ds) ==>
              exists es, fs :: OrdersDiffer(kind, ts, ds, es, fs)
  {
    if CreditsSettled(ts, ds) {
      forall es | es != [] && InRange(es, |ts|) && SameDeliveries(ds, es)
        ensures History(Deliveries(kind, ts, es)).Some?
                && History(Deliveries(kind, ts, es)).value.credits == CreditsOf(ts[Max(ds)])
      {
        SameMax(ds, es);
        SettledEither(ts, ds, es);
        AnyOrderEndsOnTheLargest(kind, ts, es);
      }
    } else {
      var k :| 0 <= k < |ds| && ts[ds[k]].credits != None;
      var es, fs := TwoOrders(kind, ts, ds, k);
      assert OrdersDiffer(kind, ts, ds, es, fs);
    }
  }

  ghost predicate OrdersDiffer(kind: Kind, ts: seq<Turn>, ds: seq<nat>, es: seq<nat>, fs: seq<nat>) {
    es != [] && InRange(es, |ts|) && SameDeliveries(ds, es)
    && fs != [] && InRange(fs, |ts|) && SameDeliveries(ds, fs)
    && History(Deliveries(kind, ts, es)) != History(Deliveries(kind, ts, fs))
    && History(Deliveries(kind, ts, es)).Some? && History(Deliveries(kind, ts, fs)).Some?
    && History(Deliveries(kind, ts, es)).value.credits != History(Deliveries(kind, ts, fs)).value.credits
  }

  lemma SettledEither(ts: seq<Turn>, ds: seq<nat>, es: seq<nat>)
    requires ds != [] && es != [] && InRange(ds, |ts|) && InRange(es, |ts|) && SameDeliveries(ds, es)
    requires CreditsSettled(ts, ds)
    ensures CreditsSettled(ts, es)
  {
    SameMax(ds, es);
    forall k | 0 <= k < |es| && ts[Max(ds)].credits == None ensures ts[es[k]].credits == None {
      assert es[k] in ds;
    }
  }

  /** Two snapshots of the kind: only the smaller one carries credits. */
  lemma MixedCreditsDependOnOrder(t: Turn)
    requires t.agent == "droid" && t.input == 1 && t.credits == None
    ensures var ts := [t.(credits := Some(5)), t.(input := 2)];
            Chain(Droid, ts) && !CreditsSettled(ts, [0, 1])
            && History(Deliveries(Droid, ts, [0, 1])).value.credits == Some(5)
            && History(Deliveries(Droid, ts, [1, 0])).value.credits == None
  {
    var ts := [t.(credits := Some(5)), t.(input := 2)];
    assert [0, 1][..1] == [0] && [1, 0][..1] == [1];
    assert Max([0, 1]) == 1 && Max([1, 0]) == 1;
    AnyOrderEndsOnTheTop(Droid, ts, [0, 1]);
    AnyOrderEndsOnTheTop(Droid, ts, [1, 0]);
  }
}
