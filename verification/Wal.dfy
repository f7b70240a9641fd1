/** The write-ahead log: record format, appending, and replay of a log that may end in a torn record. */
module Wal {
  import opened Bytes
  import opened Wrappers
  import opened Hnsw
  import opened Flat

  const INSERT: u8 := 1
  const DELETE: u8 := 2

  /** What the writer was asked to log. */
  datatype Entry = Inserted(id: u64, vec: Vec, metadata: Data) | Deleted(id: u64)

  /** What the reader hands out. */
  datatype Record = Record(op: u8, id: u64, dim: u32, vec: Vec, metadata: Data)

  datatype Event = OnInsert(rec: Record) | OnDelete(id: u64)

  // ---------- the format ----------

  /** The fields of a record in the order they are written. */
  function Fields(op: u8, id: u64, dim: u32, payload: Data, mlen: u32, metadata: Data): (r: Data)
    ensures |r| == 17 + |payload| + |metadata|
  {
    [op] + Le64(id) + Le32(dim) + payload + Le32(mlen) + metadata
  }

  /** The bytes of one entry.  Sizes are stored in 32 bits; metadata is cut to its stored size, the vector is not. */
  function Encode(e: Entry): (r: Data)
    ensures |r| >= 17
  {
    match e
    case Inserted(id, vec, metadata) =>
      Fields(INSERT, id, Low32(|vec|), LeWords(vec), Low32(|metadata|), metadata[..Low32(|metadata|)])
    case Deleted(id) =>
      Fields(DELETE, id, 0, [], 0, [])
  }

  function LogOf(es: seq<Entry>): Data {
    if es == [] then [] else Encode(es[0]) + LogOf(es[1..])
  }

  /** The first record of `b` and its size, or nothing if `b` ends before the record does. */
  function Parse(b: Data): (r: Option<(Record, nat)>)
    ensures r.Some? ==> 17 <= r.value.1 <= |b|
    ensures r.Some? ==> |r.value.0.vec| == r.value.0.dim
  {
    if |b| < 13 then None
    else
      var dim := U32(b[9..13]);
      var tail := 13 + 4 * dim as int;
      if |b| < tail + 4 then None
      else
        var mlen := U32(b[tail..tail + 4]);
        if |b| < tail + 4 + mlen then None
        else Some((Record(b[0], U64(b[1..9]), dim, Words(b[13..tail], dim), b[tail + 4..tail + 4 + mlen]), tail + 4 + mlen))
  }

  /** The callback a record causes; records of other kinds, and deletes without a callback, are skipped. */
  function EventsOf(rec: Record, hasOnDelete: bool): seq<Event> {
    if rec.op == INSERT then [OnInsert(rec)]
    else if rec.op == DELETE && hasOnDelete then [OnDelete(rec.id)]
    else []
  }

  /** All callbacks of a replay: records up to the first torn one. */
  function Replayed(b: Data, hasOnDelete: bool): seq<Event>
    decreases |b|
  {
    match Parse(b)
    case None => []
    case Some(p) => EventsOf(p.0, hasOnDelete) + Replayed(b[p.1..], hasOnDelete)
  }

  lemma Assoc<T>(a: seq<T>, b: seq<T>, c: seq<T>)
    ensures (a + b) + c == a + (b + c)
  {
  }

  // ---------- one record ----------

  /** Sizes that fit their 32-bit fields. */
  predicate Fits(e: Entry) {
    e.Inserted? ==> |e.vec| < 0x1_0000_0000 && |e.metadata| < 0x1_0000_0000
  }

  function RecordOf(e: Entry): Record
    requires Fits(e)
  {
    match e
    case Inserted(id, vec, metadata) => Record(INSERT, id, |vec|, vec, metadata)
    case Deleted(id) => Record(DELETE, id, 0, [], [])
  }

  /** The same layout for both kinds of entry. */
  function Layout(op: u8, id: u64, vec: Vec, metadata: Data): Data
    requires |vec| < 0x1_0000_0000 && |metadata| < 0x1_0000_0000
  {
    Fields(op, id, |vec|, LeWords(vec), |metadata|, metadata)
  }

  lemma EncodeIsLayout(e: Entry)
    requires Fits(e)
    ensures Encode(e) == var r := RecordOf(e); Layout(r.op, r.id, r.vec, r.metadata)
  {
    hide Fields;
    match e
    case Inserted(id, vec, metadata) => NothingCut(vec, metadata);
    case Deleted(id) => NoWords();
  }

  lemma NothingCut(vec: Vec, metadata: Data)
    requires |vec| < 0x1_0000_0000 && |metadata| < 0x1_0000_0000
    ensures Low32(|vec|) == |vec| && Low32(|metadata|) == |metadata| && metadata[..Low32(|metadata|)] == metadata
  {
  }

  lemma NoWords()
    ensures LeWords([]) == [] && |LeWords([])| == 0
  {
  }

  /** A record followed by anything is read back whole. */
  lemma ParseLayout(op: u8, id: u64, vec: Vec, metadata: Data, rest: Data)
    requires |vec| < 0x1_0000_0000 && |metadata| < 0x1_0000_0000
    ensures Parse(Layout(op, id, vec, metadata) + rest)
      == Some((Record(op, id, |vec|, vec, metadata), |Layout(op, id, vec, metadata)|))
  {
    var b := Layout(op, id, vec, metadata) + rest;
    var tail := 13 + 4 * |vec|;
    assert b[1..9] == Le64(id);
    assert b[9..13] == Le32(|vec|);
    assert b[13..tail] == LeWords(vec);
    assert b[tail..tail + 4] == Le32(|metadata|);
    assert b[tail + 4..tail + 4 + |metadata|] == metadata;
    Le64RoundTrip(id);
    Le32RoundTrip(|vec|);
    WordsRoundTrip(vec);
    Le32RoundTrip(|metadata|);
  }

  /** A record cut short anywhere is not read at all. */
  lemma TornLayout(op: u8, id: u64, vec: Vec, metadata: Data, t: nat)
    requires |vec| < 0x1_0000_0000 && |metadata| < 0x1_0000_0000
    requires t < |Layout(op, id, vec, metadata)|
    ensures Parse(Layout(op, id, vec, metadata)[..t]) == None
  {
    var whole := Layout(op, id, vec, metadata);
    var b := whole[..t];
    var tail := 13 + 4 * |vec|;
    if t >= 13 {
      assert b[9..13] == whole[9..13] == Le32(|vec|);
      Le32RoundTrip(|vec|);
      if t >= tail + 4 {
        assert b[tail..tail + 4] == whole[tail..tail + 4] == Le32(|metadata|);
        Le32RoundTrip(|metadata|);
      }
    }
  }

  /** The record read back at the front of the log agrees with the entry. */
  ghost predicate ReadBack(e: Entry, b: Data) {
    && Parse(b).Some?
    && var rec := Parse(b).value.0;
       match e
       case Inserted(id, vec, metadata) => rec.op == INSERT && rec.id == id && rec.vec == vec && rec.metadata == metadata
       case Deleted(id) => rec.op == DELETE && rec.id == id && rec.vec == [] && rec.metadata == []
  }

  /** An appended entry can be read back exactly when its sizes fit their 32-bit fields. */
  lemma ReadBackIffFits(e: Entry, rest: Data)
    ensures ReadBack(e, Encode(e) + rest) <==> Fits(e)
  {
    if Fits(e) {
      EncodeIsLayout(e);
      var r := RecordOf(e);
      ParseLayout(r.op, r.id, r.vec, r.metadata, rest);
    }
  }

  // ---------- torn logs ----------

  /** How many of the entries lie wholly inside the first `t` bytes of their log. */
  function WholeRecords(es: seq<Entry>, t: nat): (n: nat)
    ensures n <= |es|
  {
    if es == [] || t < |Encode(es[0])| then 0
    else 1 + WholeRecords(es[1..], t - |Encode(es[0])|)
  }

  lemma {:induction false} WholeRecordsMeaning(es: seq<Entry>, t: nat, n: nat)
    requires n <= |es|
    ensures n == WholeRecords(es, t) <==> |LogOf(es[..n])| <= t && (n < |es| ==> t < |LogOf(es[..n + 1])|)
  {
    hide Encode;
    if es != [] {
      var size := |Encode(es[0])|;
      assert LogOf(es[..1]) == Encode(es[0]) + LogOf(es[..1][1..]);
      if n > 0 {
        assert es[..n][1..] == es[1..][..n - 1];
        if n < |es| { assert es[..n + 1][1..] == es[1..][..n]; }
        if t >= size { WholeRecordsMeaning(es[1..], t - size, n - 1); }
      }
    }
  }

  function EventOf(e: Entry): Event
    requires Fits(e)
  {
    match e
    case Inserted(_, _, _) => OnInsert(RecordOf(e))
    case Deleted(id) => OnDelete(id)
  }

  predicate AllFit(es: seq<Entry>) {
    forall i :: 0 <= i < |es| ==> Fits(es[i])
  }

  function Callbacks(es: seq<Entry>): (r: seq<Event>)
    requires AllFit(es)
    ensures |r| == |es| && forall i :: 0 <= i < |es| ==> r[i] == EventOf(es[i])
  {
    seq(|es|, i requires 0 <= i < |es| => EventOf(es[i]))
  }

  /** With both callbacks, a byte prefix of a log replays exactly the entries that lie wholly inside it. */
  lemma {:induction false} BothCallbacks(es: seq<Entry>, t: nat)
    requires AllFit(es)
    requires t <= |LogOf(es)|
    ensures Replayed(LogOf(es)[..t], true) == Callbacks(es[..WholeRecords(es, t)])
  {
    hide Encode, Parse, Replayed, LogOf, Callbacks, AllFit, Fits, WholeRecords;
    if es == [] {
      EmptyLog(es, t);
    } else {
      FitTail(es);
      if t < |Encode(es[0])| {
        TornFirst(es, t);
      } else {
        LogLength(es);
        BothCallbacks(es[1..], t - |Encode(es[0])|);
        WholeThenTorn(es, t);
      }
    }
  }

  lemma FitTail(es: seq<Entry>)
    requires es != [] && AllFit(es)
    ensures Fits(es[0]) && AllFit(es[1..])
  {
  }

  lemma EmptyLog(es: seq<Entry>, t: nat)
    requires es == [] && t <= |LogOf(es)|
    ensures Replayed(LogOf(es)[..t], true) == Callbacks(es[..WholeRecords(es, t)])
  {
  }

  lemma WholeThenTorn(es: seq<Entry>, t: nat)
    requires es != [] && AllFit(es) && |Encode(es[0])| <= t <= |LogOf(es)|
    requires t - |Encode(es[0])| <= |LogOf(es[1..])|
    requires
      var rest := t - |Encode(es[0])|;
      Replayed(LogOf(es[1..])[..rest], true) == Callbacks(es[1..][..WholeRecords(es[1..], rest)])
    ensures Replayed(LogOf(es)[..t], true) == Callbacks(es[..WholeRecords(es, t)])
  {
    hide Encode, Parse, Replayed, LogOf;
    WholeFirst(es, t);
    FirstCallbacks(es, WholeRecords(es[1..], t - |Encode(es[0])|));
  }

  lemma LogLength(es: seq<Entry>)
    requires es != []
    ensures |LogOf(es)| == |Encode(es[0])| + |LogOf(es[1..])|
  {
  }

  lemma FirstCallbacks(es: seq<Entry>, n: nat)
    requires n < |es| && AllFit(es)
    ensures Callbacks(es[..n + 1]) == [EventOf(es[0])] + Callbacks(es[1..][..n])
  {
  }

  lemma TornFirst(es: seq<Entry>, t: nat)
    requires es != [] && AllFit(es) && Fits(es[0]) && t < |Encode(es[0])| && t <= |LogOf(es)|
    ensures Replayed(LogOf(es)[..t], true) == Callbacks(es[..WholeRecords(es, t)])
  {
    var r := RecordOf(es[0]);
    EncodeIsLayout(es[0]);
    assert LogOf(es)[..t] == Encode(es[0])[..t];
    TornLayout(r.op, r.id, r.vec, r.metadata, t);
  }

  lemma WholeFirst(es: seq<Entry>, t: nat)
    requires es != [] && Fits(es[0]) && |Encode(es[0])| <= t <= |LogOf(es)|
    ensures Replayed(LogOf(es)[..t], true) == [EventOf(es[0])] + Replayed(LogOf(es[1..])[..t - |Encode(es[0])|], true)
  {
    var first := Encode(es[0]);
    var r := RecordOf(es[0]);
    var rest := LogOf(es[1..])[..t - |first|];
    EncodeIsLayout(es[0]);
    assert LogOf(es)[..t] == first + rest;
    ParseLayout(r.op, r.id, r.vec, r.metadata, rest);
    assert (first + rest)[|first|..] == rest;
  }

  // ---------- replay without a delete callback ----------

  /** The insert callbacks among `events`, in order. */
  function OnlyInserts(events: seq<Event>): seq<Event> {
    if events == [] then []
    else (if events[0].OnInsert? then [events[0]] else []) + OnlyInserts(events[1..])
  }

  /** The inserted entries, in order. */
  function InsertsIn(es: seq<Entry>): (r: seq<Entry>)
    ensures AllFit(es) ==> AllFit(r)
  {
    if es == [] then []
    else (if es[0].Inserted? then [es[0]] else []) + InsertsIn(es[1..])
  }

  lemma InsertsOfFirst(e: Entry, es: seq<Entry>)
    ensures InsertsIn([e] + es) == if e.Inserted? then [e] + InsertsIn(es) else InsertsIn(es)
  {
    assert ([e] + es)[1..] == es;
    assert [] + InsertsIn(es) == InsertsIn(es);
  }

  lemma OneMoreOf<T>(first: T, rest: seq<T>, x: T)
    ensures multiset([first] + rest)[x] == multiset(rest)[x] + if x == first then 1 else 0
  {
  }

  /** Each inserted entry is there as often as it was logged, and nothing else is. */
  lemma {:induction false} InsertsCounted(es: seq<Entry>, e: Entry)
    ensures multiset(InsertsIn(es))[e] == if e.Inserted? then multiset(es)[e] else 0
  {
    if es != [] {
      hide InsertsIn;
      InsertsCounted(es[1..], e);
      InsertsOfFirst(es[0], es[1..]);
      OneMoreOf(es[0], es[1..], e);
      OneMoreOf(es[0], InsertsIn(es[1..]), e);
      assert [es[0]] + es[1..] == es;
    }
  }

  lemma {:induction false} OnlyInsertsSplit(first: seq<Event>, rest: seq<Event>)
    ensures OnlyInserts(first + rest) == OnlyInserts(first) + OnlyInserts(rest)
  {
    if first == [] {
      assert first + rest == rest;
    } else {
      OnlyInsertsSplit(first[1..], rest);
      assert (first + rest)[1..] == first[1..] + rest;
    }
  }

  /** Whatever bytes are replayed, leaving out the delete callback leaves out the deletes and nothing else. */
  lemma {:induction false} DeletesOnlyDropped(b: Data)
    ensures Replayed(b, false) == OnlyInserts(Replayed(b, true))
    decreases |b|
  {
    hide Parse, OnlyInserts;
    match Parse(b)
    case None => NothingInserted();
    case Some(p) =>
      DeletesOnlyDropped(b[p.1..]);
      OnlyInsertsSplit(EventsOf(p.0, true), Replayed(b[p.1..], true));
      OneEvent(p.0);
  }

  lemma NothingInserted()
    ensures OnlyInserts([]) == []
  {
  }

  lemma OneEvent(rec: Record)
    ensures EventsOf(rec, false) == OnlyInserts(EventsOf(rec, true))
  {
  }

  /** A whole record of a kind that is neither an insert, 1, nor a delete, 2, causes no callback and hides none. */
  lemma OtherKindsSkipped(op: u8, id: u64, vec: Vec, metadata: Data, rest: Data, hasOnDelete: bool)
    requires |vec| < 0x1_0000_0000 && |metadata| < 0x1_0000_0000
    requires op != 1 && op != 2
    ensures Replayed(Layout(op, id, vec, metadata) + rest, hasOnDelete) == Replayed(rest, hasOnDelete)
  {
    hide Parse, Layout;
    var first := Layout(op, id, vec, metadata);
    ParseLayout(op, id, vec, metadata, rest);
    assert (first + rest)[|first|..] == rest;
  }

  lemma NoCallbacks()
    ensures Callbacks([]) == [] && OnlyInserts([]) == []
  {
  }

  lemma CallbacksOfFirst(e: Entry, es: seq<Entry>)
    requires AllFit([e] + es) && Fits(e) && AllFit(es)
    ensures Callbacks([e] + es) == [EventOf(e)] + Callbacks(es)
  {
    hide Fits;
  }

  lemma FirstEvent(e: Entry, events: seq<Event>)
    requires Fits(e)
    ensures OnlyInserts([EventOf(e)] + events) == if e.Inserted? then [EventOf(e)] + OnlyInserts(events) else OnlyInserts(events)
  {
    assert ([EventOf(e)] + events)[1..] == events;
    assert [] + OnlyInserts(events) == OnlyInserts(events);
  }

  lemma {:induction false} InsertCallbacks(es: seq<Entry>)
    requires AllFit(es)
    ensures OnlyInserts(Callbacks(es)) == Callbacks(InsertsIn(es))
  {
    hide EventOf, Callbacks;
    if es == [] {
      NoCallbacks();
    } else {
      InsertCallbacks(es[1..]);
      assert [es[0]] + es[1..] == es;
      CallbacksOfFirst(es[0], es[1..]);
      FirstEvent(es[0], Callbacks(es[1..]));
      InsertsOfFirst(es[0], es[1..]);
      if es[0].Inserted? { CallbacksOfFirst(es[0], InsertsIn(es[1..])); }
    }
  }

  /**
   Replaying any byte prefix of a log makes the callbacks of exactly the entries that lie wholly inside the
   prefix, in the order they were appended and with identical contents; without a delete callback, of
   exactly the inserted ones among them.
   */
  lemma TornTail(es: seq<Entry>, t: nat, hasOnDelete: bool)
    requires AllFit(es)
    requires t <= |LogOf(es)|
    ensures
      var whole := es[..WholeRecords(es, t)];
      Replayed(LogOf(es)[..t], hasOnDelete) == Callbacks(if hasOnDelete then whole else InsertsIn(whole))
  {
    hide Replayed, LogOf, Callbacks, WholeRecords, InsertsIn;
    BothCallbacks(es, t);
    if !hasOnDelete {
      DeletesOnlyDropped(LogOf(es)[..t]);
      InsertCallbacks(es[..WholeRecords(es, t)]);
    }
  }

  /** An undamaged log replays completely. */
  lemma WholeLog(es: seq<Entry>, hasOnDelete: bool)
    requires AllFit(es)
    ensures Replayed(LogOf(es), hasOnDelete) == Callbacks(if hasOnDelete then es else InsertsIn(es))
  {
    hide Encode, Parse, Replayed, InsertsIn;
    TornTail(es, |LogOf(es)|, hasOnDelete);
    assert LogOf(es)[..|LogOf(es)|] == LogOf(es);
    assert es[..|es|] == es;
    WholeRecordsMeaning(es, |LogOf(es)|, |es|);
  }

  lemma {:induction false} LogOfAppend(es: seq<Entry>, e: Entry)
    ensures LogOf(es + [e]) == LogOf(es) + Encode(e)
  {
    hide Encode;
    if es == [] {
      assert LogOf([e]) == Encode(e) + LogOf([]);
    } else {
      LogOfAppend(es[1..], e);
      assert (es + [e])[1..] == es[1..] + [e];
      Assoc(Encode(es[0]), LogOf(es[1..]), Encode(e));
    }
  }

  // ---------- crash recovery ----------

  /** The operation that was logged; `level` is the random layer drawn should the index have layers. */
  function EntryOp(e: Entry, level: nat): Op {
    match e
    case Inserted(id, vec, metadata) => OpInsert(id, vec, metadata, level)
    case Deleted(id) => OpDelete(id)
  }

  function EntryOps(es: seq<Entry>, draw: nat -> nat): (r: seq<Op>)
    ensures |r| == |es| && forall i :: 0 <= i < |es| ==> r[i] == EntryOp(es[i], draw(i))
  {
    seq(|es|, i requires 0 <= i < |es| => EntryOp(es[i], draw(i)))
  }

  /** The operation a callback makes on an index. */
  function EventOp(event: Event, level: nat): Op {
    match event
    case OnInsert(rec) => OpInsert(rec.id, rec.vec, rec.metadata, level)
    case OnDelete(id) => OpDelete(id)
  }

  function EventOps(events: seq<Event>, draw: nat -> nat): (r: seq<Op>)
    ensures |r| == |events| && forall i :: 0 <= i < |events| ==> r[i] == EventOp(events[i], draw(i))
  {
    seq(|events|, i requires 0 <= i < |events| => EventOp(events[i], draw(i)))
  }

  /** Whatever index the callbacks of a torn log are made on, they repeat the completely logged operations. */
  lemma ReplayRepeatsOps(es: seq<Entry>, t: nat, draw: nat -> nat)
    requires AllFit(es) && t <= |LogOf(es)|
    ensures EventOps(Replayed(LogOf(es)[..t], true), draw) == EntryOps(es[..WholeRecords(es, t)], draw)
  {
    hide LogOf, Replayed, WholeRecords;
    BothCallbacks(es, t);
    var whole := es[..WholeRecords(es, t)];
    assert forall i :: 0 <= i < |whole| ==> EventOp(Callbacks(whole)[i], draw(i)) == EntryOp(whole[i], draw(i));
  }

  /** Feeding the callbacks of a replay to a flat index. */
  function Recover(dim: nat, events: seq<Event>): seq<Vector> {
    if events == [] then []
    else FlatStep(dim, Recover(dim, events[..|events| - 1]), EventOp(events[|events| - 1], 0))
  }

  /** Recovery from a torn log rebuilds the flat index as it was after the last completely logged operation. */
  lemma RecoveryReplaysPrefix(dim: nat, es: seq<Entry>, t: nat, draw: nat -> nat)
    requires AllFit(es)
    requires t <= |LogOf(es)|
    ensures Recover(dim, Replayed(LogOf(es)[..t], true)) == FlatRun(dim, EntryOps(es[..WholeRecords(es, t)], draw))
  {
    ReplayRepeatsOps(es, t, draw);
    RecoverIsRun(dim, Replayed(LogOf(es)[..t], true), draw);
  }

  /** The same vectors, none of them deleted. */
  function Undeleted(vs: seq<Vector>): (r: seq<Vector>)
    ensures |r| == |vs| && forall i :: 0 <= i < |vs| ==> r[i] == vs[i].(deleted := false)
  {
    seq(|vs|, i requires 0 <= i < |vs| => vs[i].(deleted := false))
  }

  lemma UndeletedStep(dim: nat, vs: seq<Vector>, op: Op)
    ensures Undeleted(FlatStep(dim, vs, op)) == if op.OpInsert? then FlatStep(dim, Undeleted(vs), op) else Undeleted(vs)
  {
    match op
    case OpInsert(id, vec, meta, _) =>
      var added := Vector(id, meta, vec, false);
      assert Undeleted(vs + [added]) == Undeleted(vs) + [added];
    case OpDelete(id) =>
      FlagForgotten(vs, id);
  }

  lemma {:induction false} FlagForgotten(vs: seq<Vector>, id: u64)
    ensures Undeleted(Flagged(vs, id)) == Undeleted(vs)
  {
    if vs != [] && vs[0].id != id {
      FlagForgotten(vs[1..], id);
      assert forall i :: 0 < i < |vs| ==> Undeleted(Flagged(vs, id))[i] == Undeleted(Flagged(vs[1..], id))[i - 1];
      assert forall i :: 0 < i < |vs| ==> Undeleted(vs)[i] == Undeleted(vs[1..])[i - 1];
    }
  }

  lemma {:induction false} RecoverInserts(dim: nat, events: seq<Event>)
    ensures Recover(dim, OnlyInserts(events)) == Undeleted(Recover(dim, events))
  {
    hide OnlyInserts, FlatStep, Undeleted;
    if events == [] {
      NothingInserted();
      NothingUndeleted();
    } else {
      var last := |events| - 1;
      RecoverInserts(dim, events[..last]);
      LastEvent(events);
      UndeletedStep(dim, Recover(dim, events[..last]), EventOp(events[last], 0));
      var kept := OnlyInserts(events[..last]);
      assert kept + [] == kept;
      if events[last].OnInsert? { RecoverNext(dim, kept, events[last]); }
    }
  }

  lemma RecoverNext(dim: nat, events: seq<Event>, event: Event)
    ensures Recover(dim, events + [event]) == FlatStep(dim, Recover(dim, events), EventOp(event, 0))
  {
    var grown := events + [event];
    assert grown[..|grown| - 1] == events && grown[|grown| - 1] == event;
  }

  lemma NothingUndeleted()
    ensures Undeleted([]) == []
  {
  }

  lemma LastEvent(events: seq<Event>)
    requires events != []
    ensures
      var last := |events| - 1;
      OnlyInserts(events) == OnlyInserts(events[..last]) + if events[last].OnInsert? then [events[last]] else []
  {
    var last := |events| - 1;
    OnlyInsertsSplit(events[..last], [events[last]]);
    assert events[..last] + [events[last]] == events;
    assert OnlyInserts([events[last]][1..]) == [];
  }

  /**
   Recovery without a delete callback, the default of a replay, brings every deleted vector back: the recovered
   flat index is the logged one exactly when no vector in the logged one is deleted.
   */
  lemma RecoveryWithoutDeletes(dim: nat, es: seq<Entry>, t: nat, draw: nat -> nat)
    requires AllFit(es)
    requires t <= |LogOf(es)|
    ensures
      var logged := FlatRun(dim, EntryOps(es[..WholeRecords(es, t)], draw));
      var recovered := Recover(dim, Replayed(LogOf(es)[..t], false));
      && recovered == Undeleted(logged)
      && (recovered == logged <==> forall i :: 0 <= i < |logged| ==> !logged[i].deleted)
  {
    RecoveryReplaysPrefix(dim, es, t, draw);
    DeletesOnlyDropped(LogOf(es)[..t]);
    RecoverInserts(dim, Replayed(LogOf(es)[..t], true));
  }

  lemma {:induction false} RecoverIsRun(dim: nat, events: seq<Event>, draw: nat -> nat)
    ensures Recover(dim, events) == FlatRun(dim, EventOps(events, draw))
  {
    if events != [] {
      var last := |events| - 1;
      RecoverIsRun(dim, events[..last], draw);
      assert EventOps(events, draw)[..last] == EventOps(events[..last], draw);
    }
  }

  // ---------- the log file ----------

  /** Writing the pieces of a record one after another appends the record. */
  lemma SixPieces(log: Data, a: Data, b: Data, c: Data, d: Data, e: Data, f: Data)
    ensures log + a + b + c + d + e + f == log + (a + b + c + d + e + f)
  {
  }

  /** A delete record has neither payload nor metadata. */
  lemma DeletePieces(log: Data, id: u64)
    ensures log + [DELETE] + Le64(id) + Le32(0) + Le32(0) == log + Fields(DELETE, id, 0, [], 0, [])
  {
    SixPieces(log, [DELETE], Le64(id), Le32(0), [], Le32(0), []);
    var head := log + [DELETE] + Le64(id) + Le32(0);
    assert head + [] == head;
    assert head + Le32(0) + [] == head + Le32(0);
  }

  class WAL {
    var log: Data

    /** Opened for appending: whatever the file holds stays. */
    constructor (existing: Data)
      ensures log == existing
    {
      log := existing;
    }

    method AppendInsert(id: u64, vec: Vec, metadata: Data)
      modifies this
      ensures log == old(log) + Encode(Inserted(id, vec, metadata))
    {
      var mlen := Low32(|metadata|);
      WriteBytes([INSERT]);
      WriteBytes(Le64(id));
      WriteBytes(Le32(Low32(|vec|)));
      WriteBytes(LeWords(vec));
      WriteBytes(Le32(mlen));
      WriteBytes(metadata[..mlen]);
      SixPieces(old(log), [INSERT], Le64(id), Le32(Low32(|vec|)), LeWords(vec), Le32(mlen), metadata[..mlen]);
    }

    method WriteBytes(bytes: Data)
      modifies this
      ensures log == old(log) + bytes
    {
      log := log + bytes;
    }

    method AppendDelete(id: u64)
      modifies this
      ensures log == old(log) + Encode(Deleted(id))
    {
      WriteBytes([DELETE]);
      WriteBytes(Le64(id));
      WriteBytes(Le32(0));
      WriteBytes(Le32(0));
      DeletePieces(old(log), id);
    }

    /** One turn of the replay loop: read a record field by field; `None` where the source breaks. */
    method ReadRecord(pos: nat) returns (r: Option<(Record, nat)>)
      requires pos <= |log|
      ensures r == Parse(log[pos..])
    {
      ghost var rest := log[pos..];
      if pos + 1 > |log| { return None; }
      var op := log[pos];
      if pos + 9 > |log| { return None; }
      var id := U64(log[pos + 1..pos + 9]);
      assert log[pos + 1..pos + 9] == rest[1..9];
      if pos + 13 > |log| { return None; }
      var dim := U32(log[pos + 9..pos + 13]);
      assert log[pos + 9..pos + 13] == rest[9..13];
      var tail := pos + 13 + 4 * dim as int;
      if tail > |log| { return None; }
      var vec := Words(log[pos + 13..tail], dim);
      assert log[pos + 13..tail] == rest[13..tail - pos];
      if tail + 4 > |log| { return None; }
      var mlen := U32(log[tail..tail + 4]);
      assert log[tail..tail + 4] == rest[tail - pos..tail - pos + 4];
      if mlen > 0 && tail + 4 + mlen > |log| { return None; }
      var metadata := log[tail + 4..tail + 4 + mlen];
      assert metadata == rest[tail - pos + 4..tail - pos + 4 + mlen];
      return Some((Record(op, id, dim, vec, metadata), tail - pos + 4 + mlen));
    }

    /** Read records until one is incomplete; `events` are the callbacks made. */
    method Replay(hasOnDelete: bool) returns (events: seq<Event>)
      ensures events == Replayed(log, hasOnDelete)
      ensures events == if hasOnDelete then Replayed(log, true) else OnlyInserts(Replayed(log, true))
    {
      hide Parse, EventsOf;
      DeletesOnlyDropped(log);
      events := [];
      var pos := 0;
      assert log[0..] == log;
      while true
        invariant 0 <= pos <= |log|
        invariant Replayed(log, hasOnDelete) == events + Replayed(log[pos..], hasOnDelete)
        decreases |log| - pos
      {
        var next := ReadRecord(pos);
        if next.None? { break; }
        var (rec, size) := next.value;
        assert log[pos..][size..] == log[pos + size..];
        Assoc(events, EventsOf(rec, hasOnDelete), Replayed(log[pos + size..], hasOnDelete));
        events := Dispatch(rec, hasOnDelete, events);
        pos := pos + size;
      }
    }

    /** Make the callback of one record. */
    method Dispatch(rec: Record, hasOnDelete: bool, made: seq<Event>) returns (events: seq<Event>)
      ensures events == made + EventsOf(rec, hasOnDelete)
    {
      events := made;
      if rec.op == INSERT {
        events := events + [OnInsert(rec)];
      } else if rec.op == DELETE && hasOnDelete {
        events := events + [OnDelete(rec.id)];
      }
    }

    /** Truncate the log. */
    method Checkpoint()
      modifies this
      ensures log == [] && Replayed(log, true) == []
    {
      log := [];
    }
  }
}
