/**
 * The one-key cooldown map (src/shared/cooldown_map_kv.js): every cooldown in one stored map, read once per invocation.
 * It answers exactly as a store with one expiring key per cooldown would.
 */
module CooldownMap {
  import opened Collections

  const KV_MIN_TTL_SECONDS := 60

  /** The stored text of a cooldown: a per-minute one, a daily one with its end, or anything else. */
  datatype Text = One | DailyUntil(until: int) | Words(words: string)

  /** A cooldown: its text, and when it ends; None never ends. */
  datatype Entry = Entry(value: Text, exp: Option<int>)

  /** One pair of the stored text: usable, or garbled (not a pair, no text, or an unreadable expiry). */
  datatype Raw = Usable(entry: Entry) | BadPair

  /** The stored text: a map of pairs, or something unreadable. */
  datatype Blob = Pairs(pairs: map<string, Raw>) | Garbage

  /** A stored value and when the store drops it. */
  datatype Cell = Cell(blob: Blob, expiresAt: Option<int>)

  predicate Alive(exp: Option<int>, t: int) {
    exp.None? || exp.value > t
  }

  /** The entries not yet over. */
  function Live(m: map<string, Entry>, t: int): map<string, Entry> {
    map k | k in m && Alive(m[k].exp, t) :: m[k]
  }

  function Parse(raw: Option<Blob>, t: int): map<string, Entry> {
    if raw.None? || raw.value.Garbage? then map[]
    else
      var pairs := raw.value.pairs;
      map k | k in pairs && pairs[k].Usable? && Alive(pairs[k].entry.exp, t) :: pairs[k].entry
  }

  function Encode(m: map<string, Entry>): Blob {
    Pairs(map k | k in m :: Usable(m[k]))
  }

  /** What a read of the map key returns. */
  function Visible(cell: Option<Cell>, t: int): Option<Blob> {
    if cell.Some? && Alive(cell.value.expiresAt, t) then Some(cell.value.blob) else None
  }

  // ---- The map's own time to live -----------------------------------------------------------

  predicate Forever(m: map<string, Entry>) {
    exists k :: k in m && m[k].exp.None?
  }

  ghost predicate IsMaxExp(m: map<string, Entry>, x: int) {
    && x >= 0 && (forall k :: k in m && m[k].exp.Some? ==> m[k].exp.value <= x)
    && (x == 0 || exists k :: k in m && m[k].exp == Some(x))
  }

  function CeilSeconds(ms: int): int {
    (ms + 999) / 1000
  }

  /** When the store drops a map written at `t` whose longest entry ends at `maxExp`. */
  function MapExpiry(m: map<string, Entry>, maxExp: int, t: int): Option<int> {
    if Forever(m) then None else Some(t + Max(KV_MIN_TTL_SECONDS, CeilSeconds(maxExp - t)) * 1000)
  }

  /** The cell written for `m` at `t`. */
  ghost predicate IsCellOf(cell: Cell, m: map<string, Entry>, t: int) {
    cell.blob == Encode(m) && exists x :: IsMaxExp(m, x) && cell.expiresAt == MapExpiry(m, x, t)
  }

  /** A written map outlives each of its entries. */
  lemma MapOutlivesItsEntries(cell: Cell, m: map<string, Entry>, t: int, k: string, later: int)
    requires IsCellOf(cell, m, t) && k in m && Alive(m[k].exp, later)
    ensures Alive(cell.expiresAt, later)
  {
    var x :| IsMaxExp(m, x) && cell.expiresAt == MapExpiry(m, x, t);
    if !Forever(m) {
      assert m[k].exp.Some? && m[k].exp.value <= x;
    }
  }

  /**
   * The map lasts until its longest entry's end, rounded up to whole seconds, but at least a minute; for ever when an
   * entry never ends.
   */
  lemma MapExpiryMeans(cell: Cell, m: map<string, Entry>, t: int)
    requires IsCellOf(cell, m, t) && t >= 0
    ensures cell.expiresAt.None? <==> exists k :: k in m && m[k].exp.None?
    ensures cell.expiresAt.Some? ==>
              var end := cell.expiresAt.value;
              && (end - t) % 1000 == 0 && end >= t + 60_000
              && (forall k :: k in m ==> m[k].exp.value <= end)
              && (end > t + 60_000 ==> exists k :: k in m && m[k].exp.value > end - 1000)
  {
    var x :| IsMaxExp(m, x) && cell.expiresAt == MapExpiry(m, x, t);
    if cell.expiresAt.Some? && cell.expiresAt.value > t + 60_000 {
      assert x > 0;
      var k :| k in m && m[k].exp == Some(x);
      assert m[k].exp.value > cell.expiresAt.value - 1000;
    }
  }

  /** What a stored text holds at `t`: its usable pairs that are not over; nothing when it is missing or unreadable. */
  lemma ParseMeans(raw: Option<Blob>, t: int, k: string)
    ensures k in Parse(raw, t) <==>
            && raw.Some? && raw.value.Pairs? && k in raw.value.pairs && raw.value.pairs[k].Usable?
            && (raw.value.pairs[k].entry.exp.Some? ==> t < raw.value.pairs[k].entry.exp.value)
    ensures k in Parse(raw, t) ==> raw.value.pairs[k] == Usable(Parse(raw, t)[k])
  {
  }

  // ---- The wrapper ------------------------------------------------------------------------------

  /** The one key of the underlying namespace that the wrapper uses, with a count of its reads. */
  class Namespace {
    var cell: Option<Cell>
    var readCount: nat

    constructor ()
      ensures cell == None && readCount == 0
    {
      cell, readCount := None, 0;
    }

    method Get(t: int) returns (raw: Option<Blob>)
      modifies this`readCount
      ensures raw == Visible(cell, t) && readCount == old(readCount) + 1
    {
      raw := Visible(cell, t);
      readCount := readCount + 1;
    }

    method Put(blob: Blob, ttl: Option<int>, t: int)
      modifies this`cell
      ensures cell == Some(Cell(blob, if ttl.Some? then Some(t + ttl.value * 1000) else None))
    {
      cell := Some(Cell(blob, if ttl.Some? then Some(t + ttl.value * 1000) else None));
    }
  }

  /** An answer to a get: a per-minute cooldown comes back with its end, any other text as stored. */
  datatype Answer = Nothing | Stored(value: Text) | MinuteUntil(exp: int)

  function AnswerOf(e: Entry): Answer {
    if e.value.One? && e.exp.Some? then MinuteUntil(e.exp.value) else Stored(e.value)
  }

  function Lookup(m: map<string, Entry>, key: string, t: int): Answer {
    if key in m && Alive(m[key].exp, t) then AnswerOf(m[key]) else Nothing
  }

  function Expiry(ttlSeconds: Option<int>, t: int): Option<int> {
    if ttlSeconds.Some? then Some(t + ttlSeconds.value * 1000) else None
  }

  /** Whether some entry never ends, and the latest end of the others. */
  method LongestEntry(m: map<string, Entry>) returns (forever: bool, maxExp: int)
    ensures forever == Forever(m) && IsMaxExp(m, maxExp)
  {
    forever, maxExp := false, 0;
    var keys := m.Keys;
    while keys != {}
      invariant keys <= m.Keys && maxExp >= 0
      invariant forever <==> exists k :: k in m && k !in keys && m[k].exp.None?
      invariant forall k :: k in m && k !in keys && m[k].exp.Some? ==> m[k].exp.value <= maxExp
      invariant maxExp == 0 || exists k :: k in m && k !in keys && m[k].exp == Some(maxExp)
      decreases |keys|
    {
      var k :| k in keys;
      keys := keys - {k};
      if m[k].exp.None? {
        forever := true;
      } else if m[k].exp.value > maxExp {
        maxExp := m[k].exp.value;
      }
    }
  }

  // ---- The reference: one expiring key per cooldown -----------------------------------------------

  datatype Op = DoGet(key: string) | DoPut(key: string, value: Text, ttlSeconds: Option<int>) | DoDelete(key: string)
              | NewInvocation

  /** The independent store after an operation at `t`. */
  function RefAfter(ref: map<string, Entry>, op: Op, t: int): map<string, Entry> {
    match op
    case DoPut(key, value, ttl) => ref[key := Entry(value, Expiry(ttl, t))]
    case DoDelete(key) => ref - {key}
    case _ => ref
  }

  function RefAnswer(ref: map<string, Entry>, op: Op, t: int): Answer {
    if op.DoGet? then Lookup(ref, op.key, t) else Nothing
  }

  /** The stored map, the invocation's cached copy, and how often the map was read in all. */
  datatype State = State(cell: Option<Cell>, cache: Option<map<string, Entry>>, readCount: nat)

  function Known(s: State, t: int): map<string, Entry> {
    if s.cache.Some? then s.cache.value else Parse(Visible(s.cell, t), t)
  }

  /** An operation of an exclusive writer at `t`. */
  ghost predicate Took(s: State, op: Op, t: int, after: State, a: Answer) {
    match op
    case NewInvocation => after == s.(cache := None) && a == Nothing
    case DoGet(key) =>
      && a == Lookup(Known(s, t), key, t)
      && after == State(s.cell, Some(Known(s, t)), s.readCount + if s.cache.Some? then 0 else 1)
    case _ =>
      var m := Live(RefAfter(Known(s, t), op, t), t);
      && a == Nothing && after.cache == Some(m) && after.cell.Some? && IsCellOf(after.cell.value, m, t)
      && after.readCount == s.readCount + if s.cache.Some? then 0 else 1
  }

  class Wrapper {
    const kv: Namespace
    const exclusiveWriter: bool
    const refreshMs: Option<int>
    var entries: Option<map<string, Entry>>
    var loadedAt: int

    constructor (kv: Namespace, exclusiveWriter: bool, refreshMs: Option<int>)
      ensures this.kv == kv && this.exclusiveWriter == exclusiveWriter && this.refreshMs == refreshMs && entries == None
    {
      this.kv, this.exclusiveWriter, this.refreshMs := kv, exclusiveWriter, refreshMs;
      entries, loadedAt := None, 0;
    }

    /** The only writer, reading the map once. */
    predicate Owns() {
      exclusiveWriter && refreshMs.None?
    }

    ghost function StateOf(): State
      reads this, kv
    {
      State(kv.cell, entries, kv.readCount)
    }

    /** Whether the cached map may still be used. */
    predicate Cached(t: int)
      reads this
    {
      entries.Some? && (refreshMs.None? || t - loadedAt < refreshMs.value)
    }

    method Load(force: bool, t: int)
      modifies this, kv`readCount
      ensures entries.Some?
      ensures !force && old(Cached(t)) ==>
                entries == old(entries) && loadedAt == old(loadedAt) && kv.readCount == old(kv.readCount)
      ensures force || !old(Cached(t)) ==>
                entries == Some(Parse(Visible(kv.cell, t), t)) && loadedAt == t && kv.readCount == old(kv.readCount) + 1
      ensures var usable := !force && old(entries).Some? && (refreshMs.Some? ==> t < old(loadedAt) + refreshMs.value);
              kv.readCount == old(kv.readCount) + if usable then 0 else 1
    {
      if !force && Cached(t) {
        return;
      }
      var raw := kv.Get(t);
      entries := Some(Parse(raw, t));
      loadedAt := t;
    }

    /** Drops what is over and writes the rest back, with the time to live of its longest entry. */
    method Persist(t: int)
      requires entries.Some?
      modifies this`entries, kv`cell
      ensures entries == Some(Live(old(entries.value), t))
      ensures forall k :: k in entries.value <==>
                          k in old(entries.value)
                          && (old(entries.value)[k].exp.Some? ==> t < old(entries.value)[k].exp.value)
      ensures forall k :: k in entries.value ==> entries.value[k] == old(entries.value)[k]
      ensures kv.cell.Some? && IsCellOf(kv.cell.value, entries.value, t)
    {
      var m := Live(entries.value, t);
      entries := Some(m);
      var forever, maxExp := LongestEntry(m);
      var ttl := if forever then None else Some(Max(KV_MIN_TTL_SECONDS, CeilSeconds(maxExp - t)));
      kv.Put(Encode(m), ttl, t);
      assert kv.cell.value.expiresAt == MapExpiry(m, maxExp, t);
    }

    method Get(key: string, t: int) returns (a: Answer)
      modifies this, kv`readCount
      ensures entries.Some? && a == Lookup(entries.value, key, t)
      ensures old(Cached(t)) ==> entries == old(entries) && kv.readCount == old(kv.readCount)
      ensures !old(Cached(t)) ==>
                entries.value == Parse(Visible(kv.cell, t), t) && kv.readCount == old(kv.readCount) + 1
      ensures Owns() ==> Took(old(StateOf()), DoGet(key), t, StateOf(), a)
      ensures if key in entries.value && (entries.value[key].exp.Some? ==> t < entries.value[key].exp.value) then
                var e := entries.value[key];
                a == if e.value.One? && e.exp.Some? then MinuteUntil(e.exp.value) else Stored(e.value)
              else a == Nothing
    {
      Load(false, t);
      a := Lookup(entries.value, key, t);
    }

    method Put(key: string, value: Text, ttlSeconds: Option<int>, t: int)
      modifies this, kv
      ensures entries.Some? && kv.cell.Some? && IsCellOf(kv.cell.value, entries.value, t)
      ensures entries.value == Live(old(Before(t))[key := Entry(value, Expiry(ttlSeconds, t))], t)
      ensures kv.readCount == old(kv.readCount) + if exclusiveWriter && old(Cached(t)) then 0 else 1
      ensures Owns() ==> Took(old(StateOf()), DoPut(key, value, ttlSeconds), t, StateOf(), Nothing)
      ensures ttlSeconds.None? ==> key in entries.value && entries.value[key] == Entry(value, None)
      ensures ttlSeconds.Some? && ttlSeconds.value > 0 ==>
                key in entries.value && entries.value[key] == Entry(value, Some(t + 1000 * ttlSeconds.value))
    {
      Load(!exclusiveWriter, t);
      entries := Some(entries.value[key := Entry(value, Expiry(ttlSeconds, t))]);
      Persist(t);
    }

    method Delete(key: string, t: int)
      modifies this, kv
      ensures entries.Some? && kv.cell.Some? && IsCellOf(kv.cell.value, entries.value, t)
      ensures entries.value == Live(old(Before(t)) - {key}, t)
      ensures kv.readCount == old(kv.readCount) + if exclusiveWriter && old(Cached(t)) then 0 else 1
      ensures Owns() ==> Took(old(StateOf()), DoDelete(key), t, StateOf(), Nothing)
      ensures key !in entries.value
    {
      Load(!exclusiveWriter, t);
      entries := Some(entries.value - {key});
      Persist(t);
    }

    /** The map a write starts from: the cache of an exclusive writer, else a fresh read. */
    ghost function Before(t: int): map<string, Entry>
      reads this, kv
    {
      if exclusiveWriter && Cached(t) then entries.value else Parse(Visible(kv.cell, t), t)
    }
  }

  // ---- Refinement ---------------------------------------------------------------------------------

  /** From `t` on, until the next write, the stored map holds exactly the reference's live entries. */
  ghost predicate CellAgrees(ref: map<string, Entry>, cell: Option<Cell>, t: int) {
    forall later :: later >= t ==> Parse(Visible(cell, later), later) == Live(ref, later)
  }

  ghost predicate CacheAgrees(ref: map<string, Entry>, m: map<string, Entry>, t: int) {
    forall later :: later >= t ==> Live(m, later) == Live(ref, later)
  }

  ghost predicate Agrees(ref: map<string, Entry>, s: State, t: int) {
    CellAgrees(ref, s.cell, t) && (s.cache.Some? ==> CacheAgrees(ref, s.cache.value, t))
  }

  /** Only live entries matter, now and later. */
  lemma LiveLater(m: map<string, Entry>, t: int, later: int)
    requires t <= later
    ensures Live(Live(m, t), later) == Live(m, later)
  {
  }

  lemma SameLookup(a: map<string, Entry>, b: map<string, Entry>, key: string, t: int)
    requires Live(a, t) == Live(b, t)
    ensures Lookup(a, key, t) == Lookup(b, key, t)
  {
    assert key in Live(a, t) <==> key in a && Alive(a[key].exp, t);
    assert key in Live(b, t) <==> key in b && Alive(b[key].exp, t);
    if key in Live(a, t) {
      assert Live(a, t)[key] == Live(b, t)[key];
    }
  }

  /** A map written at `t` reads back, at every later time, as its live entries. */
  lemma WrittenMapAgrees(cell: Cell, m: map<string, Entry>, t: int)
    requires IsCellOf(cell, m, t)
    ensures CellAgrees(m, Some(cell), t)
  {
    forall later | later >= t ensures Parse(Visible(Some(cell), later), later) == Live(m, later) {
      var p := Parse(Visible(Some(cell), later), later);
      forall k ensures k in p <==> k in Live(m, later) {
        if k in m && Alive(m[k].exp, later) {
          MapOutlivesItsEntries(cell, m, t, k, later);
        }
      }
    }
  }

  /** What an operation makes of two maps with the same live entries has the same live entries. */
  lemma SameAfter(ref: map<string, Entry>, m: map<string, Entry>, op: Op, t: int, later: int)
    requires t <= later && Live(m, later) == Live(ref, later)
    ensures Live(RefAfter(m, op, t), later) == Live(RefAfter(ref, op, t), later)
  {
    var a, b := Live(RefAfter(m, op, t), later), Live(RefAfter(ref, op, t), later);
    forall k ensures k in a <==> k in b {
      assert k in Live(m, later) <==> k in Live(ref, later);
    }
    forall k | k in a ensures a[k] == b[k] {
      assert k in Live(m, later) ==> Live(m, later)[k] == Live(ref, later)[k];
    }
  }

  lemma KnownAgrees(ref: map<string, Entry>, s: State, t: int)
    requires Agrees(ref, s, t)
    ensures CacheAgrees(ref, Known(s, t), t)
  {
    if s.cache.None? {
      forall later | later >= t ensures Live(Known(s, t), later) == Live(ref, later) {
        assert Known(s, t) == Live(ref, t);
        LiveLater(ref, t, later);
      }
    }
  }

  /** One operation answers as the reference does, and keeps the agreement. */
  lemma StepRefines(ref: map<string, Entry>, s: State, op: Op, was: int, t: int, after: State, a: Answer)
    requires Agrees(ref, s, was) && was <= t && Took(s, op, t, after, a)
    ensures a == RefAnswer(ref, op, t) && Agrees(RefAfter(ref, op, t), after, t)
  {
    assert Agrees(ref, s, t);
    KnownAgrees(ref, s, t);
    match op
    case NewInvocation =>
    case DoGet(key) =>
      assert Live(Known(s, t), t) == Live(ref, t);
      SameLookup(Known(s, t), ref, key, t);
    case _ =>
      WriteAgrees(ref, Known(s, t), op, t, after.cell.value);
  }

  /** A write that starts from a map with the reference's live entries leaves map and reference in agreement. */
  lemma WriteAgrees(ref: map<string, Entry>, m: map<string, Entry>, op: Op, t: int, cell: Cell)
    requires CacheAgrees(ref, m, t) && IsCellOf(cell, Live(RefAfter(m, op, t), t), t)
    ensures CellAgrees(RefAfter(ref, op, t), Some(cell), t)
    ensures CacheAgrees(RefAfter(ref, op, t), Live(RefAfter(m, op, t), t), t)
  {
    var w := Live(RefAfter(m, op, t), t);
    WrittenMapAgrees(cell, w, t);
    forall later | later >= t ensures Live(w, later) == Live(RefAfter(ref, op, t), later) {
      SameAfter(ref, m, op, t, later);
      LiveLater(RefAfter(m, op, t), t, later);
    }
  }

  /** A run of operations at times that never go back. */
  datatype Timed = Timed(op: Op, t: int)

  ghost predicate RunOf(s: State, ops: seq<Timed>, answers: seq<Answer>, was: int, end: State)
    decreases |ops|
  {
    if ops == [] then answers == [] && end == s
    else
      answers != [] && ops[0].t >= was
      && exists after :: Took(s, ops[0].op, ops[0].t, after, answers[0])
           && RunOf(after, ops[1..], answers[1..], ops[0].t, end)
  }

  function RefAnswers(ref: map<string, Entry>, ops: seq<Timed>): seq<Answer>
    decreases |ops|
  {
    if ops == [] then []
    else [RefAnswer(ref, ops[0].op, ops[0].t)] + RefAnswers(RefAfter(ref, ops[0].op, ops[0].t), ops[1..])
  }

  function Invocations(ops: seq<Timed>): nat {
    if ops == [] then 0 else (if ops[0].op.NewInvocation? then 1 else 0) + Invocations(ops[1..])
  }

  /**
   * Over any run of gets, puts and deletes by any number of successive invocations, the one-key map gives exactly the
   * answers of the independent store, and reads the map at most once per invocation.
   */
  lemma {:induction false} MapAnswersAsTheStore(ref: map<string, Entry>, s: State, ops: seq<Timed>,
                                                answers: seq<Answer>, was: int, end: State)
    requires Agrees(ref, s, was) && RunOf(s, ops, answers, was, end)
    ensures answers == RefAnswers(ref, ops)
    ensures end.readCount <= s.readCount + Invocations(ops) + if s.cache.Some? then 0 else 1
    decreases |ops|
  {
    if ops != [] {
      var op, t := ops[0].op, ops[0].t;
      var after :| Took(s, op, t, after, answers[0]) && RunOf(after, ops[1..], answers[1..], t, end);
      StepRefines(ref, s, op, was, t, after, answers[0]);
      ReadsOnce(s, op, t, after, answers[0]);
      hide Took, Agrees, RefAfter;
      MapAnswersAsTheStore(RefAfter(ref, op, t), after, ops[1..], answers[1..], t, end);
      assert answers == [answers[0]] + answers[1..];
    }
  }

  lemma ReadsOnce(s: State, op: Op, t: int, after: State, a: Answer)
    requires Took(s, op, t, after, a)
    ensures op.NewInvocation? ==> after.cache.None? && after.readCount == s.readCount
    ensures !op.NewInvocation? ==> after.cache.Some? && after.readCount == s.readCount + if s.cache.Some? then 0 else 1
  {
  }

  /** An empty namespace agrees with an empty store. */
  lemma EmptyAgrees(t: int)
    ensures Agrees(map[], State(None, None, 0), t)
  {
    forall later | later >= t ensures Parse(Visible(None, later), later) == Live(map[], later) {
      assert Live(map[], later) == map[];
    }
  }

  /** So from an empty namespace every answer of any run is the independent store's, from its own empty start. */
  lemma FreshMapAnswersAsTheStore(ops: seq<Timed>, answers: seq<Answer>, was: int, end: State)
    requires RunOf(State(None, None, 0), ops, answers, was, end)
    ensures answers == RefAnswers(map[], ops) && end.readCount <= Invocations(ops) + 1
  {
    EmptyAgrees(was);
    MapAnswersAsTheStore(map[], State(None, None, 0), ops, answers, was, end);
  }

  /**
   * With several writers a put or delete re-reads the map first, so whatever its own cache held it keeps every cooldown
   * recorded by others; and an answer from a copy loaded at `loaded` is what the store would give had nothing been
   * written since.
   */
  lemma SharedWritesKeepOthers(ref: map<string, Entry>, cell: Option<Cell>, op: Op, was: int, t: int, written: Cell)
    requires CellAgrees(ref, cell, was) && was <= t && (op.DoPut? || op.DoDelete?)
    requires IsCellOf(written, Live(RefAfter(Parse(Visible(cell, t), t), op, t), t), t)
    ensures CellAgrees(RefAfter(ref, op, t), Some(written), t)
  {
    var s := State(cell, None, 0);
    assert Agrees(ref, s, t);
    KnownAgrees(ref, s, t);
    WriteAgrees(ref, Known(s, t), op, t, written);
  }

  lemma CachedAnswerIsThatOfItsLoad(ref: map<string, Entry>, cell: Option<Cell>, loaded: int, t: int, key: string)
    requires CellAgrees(ref, cell, loaded) && loaded <= t
    ensures Lookup(Parse(Visible(cell, loaded), loaded), key, t) == Lookup(ref, key, t)
  {
    var s := State(cell, None, 0);
    KnownAgrees(ref, s, loaded);
    assert Live(Known(s, loaded), t) == Live(ref, t);
    SameLookup(Known(s, loaded), ref, key, t);
  }

  // ---- Cooldowns (src/shared/cooldown.js) -----------------------------------------------------------

  const DEFAULT_COOLDOWN_SECONDS := 60

  datatype Cooldown = Cooldown(daily: bool, remainingSeconds: Option<int>)

  /** The seconds asked for, whole, and at least the store's minimum. */
  function CooldownTtl(seconds: Option<real>): int {
    Max(KV_MIN_TTL_SECONDS, if seconds.Some? then seconds.value.Floor else DEFAULT_COOLDOWN_SECONDS)
  }

  function SetCooldown(key: string, seconds: Option<real>, daily: bool, t: int): Op {
    var ttl := CooldownTtl(seconds);
    DoPut(key, if daily then DailyUntil(t + ttl * 1000) else One, Some(ttl))
  }

  function Remaining(until: int, t: int): Option<int> {
    Some(Max(KV_MIN_TTL_SECONDS, CeilSeconds(until - t)))
  }

  /** What a get's answer says; a per-minute text without its end says nothing about the remaining time. */
  function GetCooldown(a: Answer, t: int): Option<Cooldown> {
    match a
    case Nothing => None
    case MinuteUntil(exp) => Some(Cooldown(false, Remaining(exp, t)))
    case Stored(DailyUntil(until)) => Some(Cooldown(true, Remaining(until, t)))
    case Stored(_) => Some(Cooldown(false, None))
  }

  /**
   * A cooldown set through the map holds for exactly the whole seconds asked for, and for a minute when asked for less
   * or for nothing; it keeps its kind, and its reported remaining time is never less than what is left, nor, beyond a
   * minute, a second more.
   */
  lemma CooldownHoldsForItsTime(ref: map<string, Entry>, key: string, seconds: Option<real>, daily: bool, t: int,
                                later: int)
    requires t <= later
    ensures var op := SetCooldown(key, seconds, daily, t);
            var end := t + 1000 * if seconds.Some? && seconds.value >= 60.0 then seconds.value.Floor else 60;
            var c := GetCooldown(RefAnswer(RefAfter(ref, op, t), DoGet(key), later), later);
            && (c.Some? <==> later < end)
            && (c.Some? ==>
                  && c.value.daily == daily && c.value.remainingSeconds.Some?
                  && var left := c.value.remainingSeconds.value;
                     left >= 60 && left * 1000 >= end - later && (left > 60 ==> (left - 1) * 1000 < end - later))
  {
  }

  /** A text that is no cooldown's, or a per-minute one without its end, is in force with nothing known of its end. */
  lemma UndatedCooldown(e: Entry, t: int)
    requires e.value.Words? || (e.value.One? && e.exp.None?)
    ensures GetCooldown(AnswerOf(e), t) == Some(Cooldown(false, None))
  {
  }
}
