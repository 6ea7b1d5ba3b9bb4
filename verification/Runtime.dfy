/** The runtime (AbstractRuntime.ts and FunctionRuntime.ts with `indexHistory`): actions
    that read their causal past and write through last-writer-wins. */
module Runtime {
  import opened MessageKeys
  import opened CausalHistory
  import opened AncestorIndex
  import opened Options
  import opened AncestorSearch
  import opened IsAncestor
  import opened IndexAgreement
  import opened Delivery
  import opened EffectKeys

  type ModelValue = map<string, string>

  /** The writes of one action; None is a delete. */
  type Writes = map<RecordKey, Option<ModelValue>>

  // ----- actions -----

  datatype Command =
    | Finish
    | Get(record: RecordKey)
    | Set(record: RecordKey, value: ModelValue)
    | Delete(record: RecordKey)

  datatype Reply = Ack | Answer(value: Option<ModelValue>)

  /** A deterministic action body: the next command as a function of the replies to the
      commands so far, for at most `limit` commands. */
  datatype Action = Action(limit: nat, next: seq<Reply> -> Command)

  /** What the API object answers, and the pending writes after it. */
  function Respond(command: Command, pending: Writes, value: Option<ModelValue>): (Reply, Writes)
    requires !command.Finish?
  {
    match command
    case Get(k) => (Reply.Answer(if k in pending then pending[k] else value), pending)
    case Set(k, v) => (Ack, pending[k := Some(v)])
    case Delete(k) => (Ack, pending[k := None])
  }

  /** The writes of an action whose reads outside its own writes are answered by `read`. */
  ghost function Run(
    action: Action, read: RecordKey -> Option<ModelValue>, replies: seq<Reply>, pending: Writes): Writes
    decreases action.limit - |replies|
  {
    if |replies| >= action.limit || action.next(replies).Finish? then pending
    else
      var command := action.next(replies);
      var value := if command.Get? then read(command.record) else None;
      var (reply, pending') := Respond(command, pending, value);
      Run(action, read, replies + [reply], pending')
  }

  /** A run depends only on the answers to its reads. */
  lemma {:induction false} RunAgrees(
    action: Action, one: RecordKey -> Option<ModelValue>, two: RecordKey -> Option<ModelValue>,
    replies: seq<Reply>, pending: Writes)
    requires forall k :: one(k) == two(k)
    ensures Run(action, one, replies, pending) == Run(action, two, replies, pending)
    decreases action.limit - |replies|
  {
    if |replies| < action.limit && !action.next(replies).Finish? {
      var command := action.next(replies);
      var value := if command.Get? then one(command.record) else None;
      var (reply, pending') := Respond(command, pending, value);
      RunAgrees(action, one, two, replies + [reply], pending');
    }
  }

  // ----- what a run is, command by command -----

  /** Command number i of an action that has got these replies. */
  function CommandAt(action: Action, replies: seq<Reply>, i: nat): Command
    requires i <= |replies|
  {
    action.next(replies[..i])
  }

  predicate WritesTo(command: Command, k: RecordKey) {
    match command
    case Set(record, _) => record == k
    case Delete(record) => record == k
    case _ => false
  }

  /** Command j is the last of the first n that sets or deletes the record. */
  ghost predicate LastWriteTo(action: Action, replies: seq<Reply>, n: nat, k: RecordKey, j: nat)
    requires n <= |replies|
  {
    j < n && WritesTo(CommandAt(action, replies, j), k)
    && forall l: nat :: j < l < n ==> !WritesTo(CommandAt(action, replies, l), k)
  }

  /** The value a write leaves; None after a delete. */
  function WrittenBy(command: Command): Option<ModelValue> {
    match command
    case Set(_, value) => Some(value)
    case _ => None
  }

  ghost predicate NeverWritten(action: Action, replies: seq<Reply>, n: nat, k: RecordKey)
    requires n <= |replies|
  {
    forall j: nat :: j < n ==> !WritesTo(CommandAt(action, replies, j), k)
  }

  /** Command i is answered: a `get` with the last write to the record before it, or from
      outside if there is none; the others without a value. */
  ghost predicate Answered(action: Action, read: RecordKey -> Option<ModelValue>, replies: seq<Reply>, i: nat)
    requires i < |replies|
  {
    match CommandAt(action, replies, i)
    case Finish => false
    case Set(_, _) => replies[i] == Ack
    case Delete(_) => replies[i] == Ack
    case Get(k) =>
      (forall j: nat :: LastWriteTo(action, replies, i, k, j) ==>
         replies[i] == Reply.Answer(WrittenBy(CommandAt(action, replies, j))))
      && (NeverWritten(action, replies, i, k) ==> replies[i] == Reply.Answer(read(k)))
  }

  /** The pending write to a record after n commands is the last of them, if there is one. */
  ghost predicate Pending(action: Action, replies: seq<Reply>, n: nat, writes: Writes, k: RecordKey)
    requires n <= |replies|
  {
    (k !in writes <==> NeverWritten(action, replies, n, k))
    && forall j: nat :: LastWriteTo(action, replies, n, k, j) ==>
         k in writes && writes[k] == WrittenBy(CommandAt(action, replies, j))
  }

  /** An action has got these replies so far and noted these writes. */
  ghost predicate Traced(
    action: Action, read: RecordKey -> Option<ModelValue>, replies: seq<Reply>, writes: Writes)
  {
    |replies| <= action.limit
    && (forall i: nat {:trigger Answered(action, read, replies, i)} ::
          i < |replies| ==> Answered(action, read, replies, i))
    && forall k: RecordKey {:trigger Pending(action, replies, |replies|, writes, k)} ::
         Pending(action, replies, |replies|, writes, k)
  }

  /** It is through: it has finished, or used up its commands. */
  ghost predicate Executed(
    action: Action, read: RecordKey -> Option<ModelValue>, replies: seq<Reply>, writes: Writes)
  {
    Traced(action, read, replies, writes) && (|replies| == action.limit || action.next(replies).Finish?)
  }

  lemma NothingTraced(action: Action, read: RecordKey -> Option<ModelValue>)
    ensures Traced(action, read, [], map[])
  {
  }

  /** The commands before do not change when a reply is added. */
  lemma SameCommands(action: Action, replies: seq<Reply>, reply: Reply, i: nat)
    requires i <= |replies|
    ensures CommandAt(action, replies + [reply], i) == CommandAt(action, replies, i)
  {
    assert (replies + [reply])[..i] == replies[..i];
  }

  lemma SameLastWrite(action: Action, replies: seq<Reply>, reply: Reply, n: nat, k: RecordKey)
    requires n <= |replies|
    ensures forall j: nat ::
              LastWriteTo(action, replies + [reply], n, k, j) <==> LastWriteTo(action, replies, n, k, j)
    ensures NeverWritten(action, replies + [reply], n, k) <==> NeverWritten(action, replies, n, k)
  {
    forall i: nat | i <= |replies| ensures CommandAt(action, replies + [reply], i) == CommandAt(action, replies, i) {
      SameCommands(action, replies, reply, i);
    }
  }

  lemma {:induction false} SomeLastWrite(action: Action, replies: seq<Reply>, n: nat, k: RecordKey) returns (j: nat)
    requires n <= |replies| && !NeverWritten(action, replies, n, k)
    ensures LastWriteTo(action, replies, n, k, j)
  {
    if WritesTo(CommandAt(action, replies, n - 1), k) {
      j := n - 1;
    } else {
      j := SomeLastWrite(action, replies, n - 1, k);
    }
  }

  /** One more command: a `get` is answered by the pending write or from outside, a `set` or a
      `delete` is noted. */
  ghost predicate Performed(
    command: Command, read: RecordKey -> Option<ModelValue>, writes: Writes, reply: Reply, writes': Writes)
  {
    match command
    case Finish => false
    case Get(k) => writes' == writes && reply == Reply.Answer(if k in writes then writes[k] else read(k))
    case Set(k, v) => writes' == writes[k := Some(v)] && reply == Ack
    case Delete(k) => writes' == writes[k := None] && reply == Ack
  }

  lemma TracedNext(
    action: Action, read: RecordKey -> Option<ModelValue>, replies: seq<Reply>, writes: Writes,
    reply: Reply, writes': Writes)
    requires Traced(action, read, replies, writes) && |replies| < action.limit
    requires Performed(action.next(replies), read, writes, reply, writes')
    ensures Traced(action, read, replies + [reply], writes')
  {
    var longer, n := replies + [reply], |replies|;
    assert replies[..n] == replies;
    SameCommands(action, replies, reply, n);
    forall i: nat | i < |longer| ensures Answered(action, read, longer, i) {
      if i < n {
        AnsweredStill(action, read, replies, reply, i);
      } else {
        AnsweredNow(action, read, replies, writes, reply, writes');
      }
    }
    forall k: RecordKey ensures Pending(action, longer, |longer|, writes', k) {
      PendingNext(action, read, replies, writes, reply, writes', k);
    }
  }

  lemma AnsweredStill(
    action: Action, read: RecordKey -> Option<ModelValue>, replies: seq<Reply>, reply: Reply, i: nat)
    requires i < |replies| && Answered(action, read, replies, i)
    ensures Answered(action, read, replies + [reply], i)
  {
    var longer := replies + [reply];
    SameCommands(action, replies, reply, i);
    assert longer[i] == replies[i];
    if CommandAt(action, replies, i).Get? {
      var k := CommandAt(action, replies, i).record;
      SameLastWrite(action, replies, reply, i, k);
      forall j: nat | LastWriteTo(action, longer, i, k, j)
        ensures longer[i] == Reply.Answer(WrittenBy(CommandAt(action, longer, j)))
      {
        SameCommands(action, replies, reply, j);
      }
    }
  }

  lemma AnsweredNow(
    action: Action, read: RecordKey -> Option<ModelValue>, replies: seq<Reply>, writes: Writes,
    reply: Reply, writes': Writes)
    requires Traced(action, read, replies, writes)
    requires Performed(action.next(replies), read, writes, reply, writes')
    ensures Answered(action, read, replies + [reply], |replies|)
  {
    var longer, n := replies + [reply], |replies|;
    assert replies[..n] == replies;
    SameCommands(action, replies, reply, n);
    if action.next(replies).Get? {
      var k := action.next(replies).record;
      assert Pending(action, replies, n, writes, k);
      SameLastWrite(action, replies, reply, n, k);
      forall j: nat | LastWriteTo(action, longer, n, k, j)
        ensures longer[n] == Reply.Answer(WrittenBy(CommandAt(action, longer, j)))
      {
        SameCommands(action, replies, reply, j);
      }
    }
  }

  lemma PendingNext(
    action: Action, read: RecordKey -> Option<ModelValue>, replies: seq<Reply>, writes: Writes,
    reply: Reply, writes': Writes, k: RecordKey)
    requires Traced(action, read, replies, writes)
    requires Performed(action.next(replies), read, writes, reply, writes')
    ensures Pending(action, replies + [reply], |replies| + 1, writes', k)
  {
    var longer, n := replies + [reply], |replies|;
    assert replies[..n] == replies;
    SameCommands(action, replies, reply, n);
    SameLastWrite(action, replies, reply, n, k);
    assert Pending(action, replies, n, writes, k);
    if WritesTo(action.next(replies), k) {
      assert LastWriteTo(action, longer, n + 1, k, n);
    } else {
      forall j: nat | LastWriteTo(action, longer, n + 1, k, j)
        ensures k in writes' && writes'[k] == WrittenBy(CommandAt(action, longer, j))
      {
        SameCommands(action, replies, reply, j);
        assert LastWriteTo(action, longer, n, k, j);
      }
    }
  }

  /** The specified run is an execution in this sense. */
  lemma {:induction false} RunIsExecuted(
    action: Action, read: RecordKey -> Option<ModelValue>, replies: seq<Reply>, writes: Writes)
    returns (all: seq<Reply>)
    requires Traced(action, read, replies, writes)
    ensures Executed(action, read, all, Run(action, read, replies, writes))
    decreases action.limit - |replies|
  {
    if |replies| >= action.limit || action.next(replies).Finish? {
      all := replies;
    } else {
      var command := action.next(replies);
      var value := if command.Get? then read(command.record) else None;
      var (reply, writes') := Respond(command, writes, value);
      TracedNext(action, read, replies, writes, reply, writes');
      all := RunIsExecuted(action, read, replies + [reply], writes');
    }
  }

  // ----- the greatest of a set of identifiers -----

  type Order = (Id, Id) -> bool

  ghost predicate Ordered(less: Order, a: Id, b: Id) {
    !(less(a, b) && less(b, a)) && (less(a, b) || less(b, a) || a == b)
  }

  /** A strict total order on a set. */
  ghost predicate TotalOn(less: Order, ids: set<Id>) {
    (forall a, b {:trigger Ordered(less, a, b)} :: a in ids && b in ids ==> Ordered(less, a, b))
    && forall a, b, c {:trigger less(a, b), less(b, c)} ::
         a in ids && b in ids && c in ids && less(a, b) && less(b, c) ==> less(a, c)
  }

  ghost predicate IsGreatest(less: Order, g: Id, ids: set<Id>) {
    g in ids && forall x :: x in ids && x != g ==> less(x, g)
  }

  lemma {:induction false} GreatestExists(less: Order, universe: set<Id>, ids: set<Id>)
    requires TotalOn(less, universe) && ids <= universe && ids != {}
    ensures exists g :: IsGreatest(less, g, ids)
    decreases |ids|
  {
    var x :| x in ids;
    var rest := ids - {x};
    assert ids == rest + {x};
    if rest == {} {
      assert forall y :: y in ids ==> y == x;
      assert IsGreatest(less, x, ids);
    } else {
      GreatestExists(less, universe, rest);
      var h :| IsGreatest(less, h, rest);
      assert Ordered(less, x, h);
      var g := if less(h, x) then x else h;
      forall y | y in ids && y != g ensures less(y, g) {
        if y in rest && y != h && g == x {
          assert less(y, h) && less(h, x);
        }
      }
      assert IsGreatest(less, g, ids);
    }
  }

  lemma GreatestUnique(less: Order, universe: set<Id>, ids: set<Id>, g: Id, h: Id)
    requires TotalOn(less, universe) && ids <= universe && IsGreatest(less, g, ids) && IsGreatest(less, h, ids)
    ensures g == h
  {
    assert Ordered(less, g, h);
  }

  ghost function Greatest(less: Order, universe: set<Id>, ids: set<Id>): (g: Id)
    requires TotalOn(less, universe) && ids <= universe && ids != {}
    ensures IsGreatest(less, g, ids)
  {
    GreatestExists(less, universe, ids);
    var g :| IsGreatest(less, g, ids);
    g
  }

  // ----- what an action writes, as a function of its causal history -----

  /** A causal history with its ancestor index, the actions, and the order of identifiers. */
  datatype World = World(dag: Dag, index: Index, actions: map<Id, Action>, less: Order)

  ghost predicate Sound(w: World) {
    WellClocked(w.dag) && Closed(w.dag, w.dag.Keys)
    && Shaped(w.index) && RowsSound(w.dag, w.index) && w.index.Keys == w.dag.Keys
    && w.actions.Keys == w.dag.Keys && TotalOn(w.less, w.dag.Keys)
  }

  lemma ParentsInWorld(w: World, m: Id)
    requires Sound(w) && m in w.dag
    ensures forall p :: p in w.dag[m] ==> p in w.index && p in w.dag && p.clock < m.clock
  {
    assert HasParents(w.dag, w.dag.Keys, m);
  }

  /** Whether the runtime's ancestor check lets m read effects of a. */
  ghost predicate Sees(w: World, m: Id, a: Id)
    requires Sound(w) && m in w.dag && a in w.dag
  {
    ParentsInWorld(w, m);
    QueryParents(w.index, w.dag[m], a, {})
  }

  /** The messages m can see. */
  ghost function Past(w: World, m: Id): set<Id>
    requires Sound(w) && m in w.dag
  {
    set a | a in w.dag && Sees(w, m, a)
  }

  /** What m sees are ancestors of m. */
  lemma PastIsAncestors(w: World, m: Id, a: Id)
    requires Sound(w) && m in w.dag && a in Past(w, m)
    ensures Reaches(w.dag, m, a) && a.clock < m.clock
    ensures exists p :: p in w.dag[m] && Reaches(w.dag, p, a)
  {
    ParentsInWorld(w, m);
    QueryParentsSound(w.dag, w.index, w.dag[m], a, {});
    var p :| p in w.dag[m] && Reaches(w.dag, p, a);
    ReachesEarlier(w.dag, p, a);
  }

  /** If no row of the index lost an ancestor, m sees exactly its strict ancestors. */
  lemma PastIsAllAncestors(w: World, m: Id, a: Id)
    requires Sound(w) && RowsExact(w.dag, w.index) && m in w.dag && a in w.dag
    ensures a in Past(w, m) <==> Reaches(w.dag, m, a) && a != m
  {
    ParentsInWorld(w, m);
    QueryParentsExact(w.dag, w.index, w.dag[m], a, {});
    if a in Past(w, m) {
      PastIsAncestors(w, m, a);
    }
  }

  /** What m writes. */
  ghost function WritesOf(w: World, m: Id): Writes
    requires Sound(w) && m in w.dag
    decreases m.clock, 2
  {
    Run(w.actions[m], (k: RecordKey) => ReadPast(w, m, k), [], map[])
  }

  /** They are what the action's commands leave, when its reads find its causal past. */
  lemma WritesAreExecuted(w: World, m: Id) returns (replies: seq<Reply>)
    requires Sound(w) && m in w.dag
    ensures Executed(w.actions[m], (k: RecordKey) => ReadPast(w, m, k), replies, WritesOf(w, m))
  {
    var read := (k: RecordKey) => ReadPast(w, m, k);
    NothingTraced(w.actions[m], read);
    replies := RunIsExecuted(w.actions[m], read, [], map[]);
  }

  /** The messages m can see that write a record. */
  ghost function PastWriters(w: World, m: Id, k: RecordKey): set<Id>
    requires Sound(w) && m in w.dag
    decreases m.clock, 0
  {
    set a | a in Past(w, m) && a.clock < m.clock && k in WritesOf(w, a)
  }

  /** What m reads from a record: the greatest write it can see. */
  ghost function ReadPast(w: World, m: Id, k: RecordKey): Option<ModelValue>
    requires Sound(w) && m in w.dag
    decreases m.clock, 1
  {
    var writers := PastWriters(w, m, k);
    if writers == {} then None
    else
      var a := Greatest(w.less, w.dag.Keys, writers);
      WritesOf(w, a)[k]
  }

  // ----- the database -----

  datatype EffectKey = EffectKey(record: RecordKey, id: Id)

  /** The `$effects` table and the model tables. */
  datatype Db = Db(effects: map<EffectKey, Option<ModelValue>>, tables: map<RecordKey, ModelValue>)

  /** The identifiers with a recorded effect on a record. */
  ghost function Writers(db: Db, k: RecordKey): set<Id> {
    set e | e in db.effects && e.record == k :: e.id
  }

  /** What an action reads from the database: the greatest recorded effect it can see. */
  ghost function ReadDb(w: World, db: Db, m: Id, k: RecordKey): Option<ModelValue>
    requires Sound(w) && m in w.dag
  {
    var seen := Writers(db, k) * Past(w, m);
    if seen == {} then None else db.effects[EffectKey(k, Greatest(w.less, w.dag.Keys, seen))]
  }

  ghost function Reads(w: World, db: Db, m: Id): RecordKey -> Option<ModelValue>
    requires Sound(w) && m in w.dag
  {
    (k: RecordKey) => ReadDb(w, db, m, k)
  }

  /** Some recorded effect on the record is greater than m. */
  ghost predicate Superseded(less: Order, db: Db, m: Id, k: RecordKey) {
    exists x :: x in Writers(db, k) && less(m, x)
  }

  /** The database after m's writes have been recorded and applied. */
  ghost function Applied(less: Order, db: Db, m: Id, writes: Writes): Db {
    Db(
      map e | e in db.effects.Keys + (set k | k in writes :: EffectKey(k, m)) ::
        if e.id == m && e.record in writes then writes[e.record] else db.effects[e],
      map k | k in db.tables.Keys + writes.Keys
          && (if Lands(less, db, m, writes, k) then writes[k].Some? else k in db.tables) ::
        if Lands(less, db, m, writes, k) then writes[k].value else db.tables[k])
  }

  ghost predicate Lands(less: Order, db: Db, m: Id, writes: Writes, k: RecordKey) {
    k in writes && !Superseded(less, db, m, k)
  }

  /** One call of the consumer. */
  ghost function Step(w: World, db: Db, m: Id): Db
    requires Sound(w) && m in w.dag
  {
    Applied(w.less, db, m, Run(w.actions[m], Reads(w, db, m), [], map[]))
  }

  /** Applying a sequence of messages to an empty database. */
  ghost function RunAll(w: World, order: seq<Id>): Db
    requires Sound(w) && Elements(order) <= w.dag.Keys
  {
    if order == [] then Db(map[], map[])
    else
      assert order[|order| - 1] in Elements(order);
      assert Elements(order[..|order| - 1]) <= Elements(order);
      Step(w, RunAll(w, order[..|order| - 1]), order[|order| - 1])
  }

  // ----- convergence -----

  /** The messages of a set that write a record. */
  ghost function WritersIn(w: World, ms: set<Id>, k: RecordKey): set<Id>
    requires Sound(w) && ms <= w.dag.Keys
  {
    set m | m in ms && k in WritesOf(w, m)
  }

  ghost predicate EffectsMatch(w: World, ms: set<Id>, db: Db)
    requires Sound(w) && ms <= w.dag.Keys
  {
    forall e {:trigger e in db.effects} ::
      (e in db.effects <==> e.id in ms && e.record in WritesOf(w, e.id))
      && (e in db.effects ==> db.effects[e] == WritesOf(w, e.id)[e.record])
  }

  /** The winning value of a record among the writes of a set of messages. */
  ghost function Winning(w: World, ms: set<Id>, k: RecordKey): Option<ModelValue>
    requires Sound(w) && ms <= w.dag.Keys
  {
    var writers := WritersIn(w, ms, k);
    if writers == {} then None else WritesOf(w, Greatest(w.less, w.dag.Keys, writers))[k]
  }

  ghost predicate TableMatches(w: World, ms: set<Id>, db: Db, k: RecordKey)
    requires Sound(w) && ms <= w.dag.Keys
  {
    Winning(w, ms, k) == if k in db.tables then Some(db.tables[k]) else None
  }

  ghost predicate TablesMatch(w: World, ms: set<Id>, db: Db)
    requires Sound(w) && ms <= w.dag.Keys
  {
    forall k {:trigger TableMatches(w, ms, db, k)} :: TableMatches(w, ms, db, k)
  }

  /** While a delivered prefix is in the database, a read that goes through the database
      finds what the causal past alone determines, whatever else has been recorded. */
  lemma ReadsAgree(w: World, ms: set<Id>, db: Db, m: Id, k: RecordKey)
    requires Sound(w) && ms <= w.dag.Keys && Closed(w.dag, ms) && EffectsMatch(w, ms, db)
    requires m in w.dag && forall p :: p in w.dag[m] ==> p in ms
    ensures ReadDb(w, db, m, k) == ReadPast(w, m, k)
  {
    VisibleWriters(w, ms, db, m, k);
    var seen := PastWriters(w, m, k);
    if seen != {} {
      var g := Greatest(w.less, w.dag.Keys, seen);
      assert g in Writers(db, k);
      assert EffectKey(k, g) in db.effects;
    }
  }

  lemma VisibleWriters(w: World, ms: set<Id>, db: Db, m: Id, k: RecordKey)
    requires Sound(w) && ms <= w.dag.Keys && Closed(w.dag, ms) && EffectsMatch(w, ms, db)
    requires m in w.dag && forall p :: p in w.dag[m] ==> p in ms
    ensures Writers(db, k) * Past(w, m) == PastWriters(w, m, k)
  {
    forall a | a in Past(w, m)
      ensures a in Writers(db, k) <==> a in PastWriters(w, m, k)
    {
      PastIsAncestors(w, m, a);
      var p :| p in w.dag[m] && Reaches(w.dag, p, a);
      ClosedHoldsAncestors(w.dag, ms, p, a);
      InWriters(w, ms, db, k, a);
    }
  }

  lemma InWriters(w: World, ms: set<Id>, db: Db, k: RecordKey, a: Id)
    requires Sound(w) && ms <= w.dag.Keys && EffectsMatch(w, ms, db)
    ensures a in Writers(db, k) <==> a in WritersIn(w, ms, k)
  {
    var e := EffectKey(k, a);
    assert e in db.effects <==> a in ms && k in WritesOf(w, a);
    if a in Writers(db, k) {
      var e' :| e' in db.effects && e'.record == k && e'.id == a;
      assert e' == e;
    }
  }

  lemma SameWriters(w: World, ms: set<Id>, db: Db, k: RecordKey)
    requires Sound(w) && ms <= w.dag.Keys && EffectsMatch(w, ms, db)
    ensures Writers(db, k) == WritersIn(w, ms, k)
  {
    forall a ensures a in Writers(db, k) <==> a in WritersIn(w, ms, k) {
      InWriters(w, ms, db, k, a);
    }
  }

  /** The writes computed through the database are those the causal past determines. */
  lemma StepWrites(w: World, ms: set<Id>, db: Db, m: Id)
    requires Sound(w) && ms <= w.dag.Keys && Closed(w.dag, ms) && EffectsMatch(w, ms, db)
    requires m in w.dag && forall p :: p in w.dag[m] ==> p in ms
    ensures Step(w, db, m) == Applied(w.less, db, m, WritesOf(w, m))
  {
    forall k ensures ReadDb(w, db, m, k) == ReadPast(w, m, k) {
      ReadsAgree(w, ms, db, m, k);
    }
    RunAgrees(w.actions[m], Reads(w, db, m), (k: RecordKey) => ReadPast(w, m, k), [], map[]);
  }

  lemma AppliedEffects(w: World, ms: set<Id>, db: Db, m: Id)
    requires Sound(w) && ms <= w.dag.Keys && m in w.dag && EffectsMatch(w, ms, db)
    ensures EffectsMatch(w, ms + {m}, Applied(w.less, db, m, WritesOf(w, m)))
  {
  }

  /** A write that no recorded effect supersedes wins; a superseded one changes nothing. */
  lemma AppliedTable(w: World, ms: set<Id>, db: Db, m: Id, k: RecordKey)
    requires Sound(w) && ms <= w.dag.Keys && m in w.dag && EffectsMatch(w, ms, db) && TableMatches(w, ms, db, k)
    ensures TableMatches(w, ms + {m}, Applied(w.less, db, m, WritesOf(w, m)), k)
  {
    var writes := WritesOf(w, m);
    SameWriters(w, ms, db, k);
    WinningNext(w, ms, m, k);
    if k in writes && Superseded(w.less, db, m, k) {
      assert Winning(w, ms + {m}, k) == Winning(w, ms, k);
    }
  }

  /** How one more message changes the winning write of a record. */
  lemma WinningNext(w: World, ms: set<Id>, m: Id, k: RecordKey)
    requires Sound(w) && ms <= w.dag.Keys && m in w.dag
    ensures Winning(w, ms + {m}, k)
            == if k !in WritesOf(w, m) || (exists x :: x in WritersIn(w, ms, k) && w.less(m, x)) then Winning(w, ms, k)
               else WritesOf(w, m)[k]
  {
    var old', new' := WritersIn(w, ms, k), WritersIn(w, ms + {m}, k);
    if k !in WritesOf(w, m) {
      assert new' == old';
    } else {
      assert new' == old' + {m};
      if exists x :: x in old' && w.less(m, x) {
        KeepsGreatest(w.less, w.dag.Keys, old', m);
      } else {
        BecomesGreatest(w.less, w.dag.Keys, old', m);
      }
    }
  }

  lemma KeepsGreatest(less: Order, universe: set<Id>, ids: set<Id>, m: Id)
    requires TotalOn(less, universe) && ids <= universe && m in universe
    requires exists x :: x in ids && less(m, x)
    ensures Greatest(less, universe, ids + {m}) == Greatest(less, universe, ids)
  {
    var x :| x in ids && less(m, x);
    var g := Greatest(less, universe, ids);
    assert Ordered(less, m, g) && Ordered(less, m, x);
    if x != g {
      assert less(m, x) && less(x, g);
    }
    assert IsGreatest(less, g, ids + {m});
    GreatestUnique(less, universe, ids + {m}, g, Greatest(less, universe, ids + {m}));
  }

  lemma BecomesGreatest(less: Order, universe: set<Id>, ids: set<Id>, m: Id)
    requires TotalOn(less, universe) && ids <= universe && m in universe
    requires forall x :: x in ids ==> !less(m, x)
    ensures Greatest(less, universe, ids + {m}) == m
  {
  }

  /** Delivering a message, for the first time or again, keeps the database a function of
      the set of messages delivered. */
  lemma StepKeeps(w: World, ms: set<Id>, db: Db, m: Id)
    requires Sound(w) && ms <= w.dag.Keys && Closed(w.dag, ms)
    requires EffectsMatch(w, ms, db) && TablesMatch(w, ms, db)
    requires m in w.dag && forall p :: p in w.dag[m] ==> p in ms
    ensures EffectsMatch(w, ms + {m}, Step(w, db, m)) && TablesMatch(w, ms + {m}, Step(w, db, m))
  {
    StepWrites(w, ms, db, m);
    AppliedEffects(w, ms, db, m);
    forall k ensures TableMatches(w, ms + {m}, Step(w, db, m), k) {
      assert TableMatches(w, ms, db, k);
      AppliedTable(w, ms, db, m, k);
    }
  }

  lemma {:induction false} DeliveriesAreClosed(dag: Dag, order: seq<Id>)
    requires IsDelivery(dag, order)
    ensures Closed(dag, Elements(order))
  {
    forall m | m in Elements(order) ensures HasParents(dag, Elements(order), m) {
      var i :| 0 <= i < |order| && order[i] == m;
      assert DeliveredAt(dag, order, i);
    }
  }

  /** After any delivery sequence the tables are those its set of messages determines. */
  lemma {:induction false} RunAllMatches(w: World, order: seq<Id>)
    requires Sound(w) && IsDelivery(w.dag, order)
    ensures Elements(order) <= w.dag.Keys
    ensures EffectsMatch(w, Elements(order), RunAll(w, order)) && TablesMatch(w, Elements(order), RunAll(w, order))
  {
    DeliveredInDag(w.dag, order);
    if order == [] {
      assert Elements(order) == {};
      forall k ensures TableMatches(w, {}, RunAll(w, order), k) {
        assert WritersIn(w, {}, k) == {};
      }
    } else {
      var front, m := order[..|order| - 1], order[|order| - 1];
      Prefix(w.dag, order);
      RunAllMatches(w, front);
      DeliveriesAreClosed(w.dag, front);
      StepKeeps(w, Elements(front), RunAll(w, front), m);
      assert Elements(order) == Elements(front) + {m};
    }
  }

  lemma MatchingDbsEqual(w: World, ms: set<Id>, one: Db, two: Db)
    requires Sound(w) && ms <= w.dag.Keys
    requires EffectsMatch(w, ms, one) && TablesMatch(w, ms, one)
    requires EffectsMatch(w, ms, two) && TablesMatch(w, ms, two)
    ensures one == two
  {
    forall e ensures e in one.effects <==> e in two.effects {
    }
    assert one.effects.Keys == two.effects.Keys;
    assert one.effects == two.effects;
    forall k
      ensures k in one.tables <==> k in two.tables
      ensures k in one.tables ==> one.tables[k] == two.tables[k]
    {
      assert TableMatches(w, ms, one, k) && TableMatches(w, ms, two, k);
    }
    assert one.tables == two.tables;
  }

  /** Convergence: any two parent-before-child deliveries of the same messages, repeats
      allowed, leave the same `$effects` rows and the same model tables. */
  lemma Converges(w: World, one: seq<Id>, two: seq<Id>)
    requires Sound(w) && IsDelivery(w.dag, one) && IsDelivery(w.dag, two) && Elements(one) == Elements(two)
    ensures Elements(one) <= w.dag.Keys && RunAll(w, one) == RunAll(w, two)
  {
    RunAllMatches(w, one);
    RunAllMatches(w, two);
    MatchingDbsEqual(w, Elements(one), RunAll(w, one), RunAll(w, two));
  }

  // ----- what a read finds, against what the message's ancestors wrote -----

  /** The strict ancestors of m with a recorded effect on a record. */
  ghost function AncestorWriters(w: World, db: Db, m: Id, k: RecordKey): set<Id>
    requires Sound(w)
  {
    set a | a in Writers(db, k) && a in w.dag && Reaches(w.dag, m, a) && a != m
  }

  /** Where a read is meant to find its value: the greatest effect among the ancestors. */
  ghost function LastWriter(w: World, db: Db, m: Id, k: RecordKey): Option<Id>
    requires Sound(w)
  {
    var writers := AncestorWriters(w, db, m, k);
    if writers == {} then None else Some(Greatest(w.less, w.dag.Keys, writers))
  }

  /** Where a read does find its value. */
  ghost function ReadSource(w: World, db: Db, m: Id, k: RecordKey): Option<Id>
    requires Sound(w) && m in w.dag
  {
    var seen := Writers(db, k) * Past(w, m);
    if seen == {} then None else Some(Greatest(w.less, w.dag.Keys, seen))
  }

  ghost function EffectOf(db: Db, k: RecordKey, source: Option<Id>): Option<ModelValue> {
    if source.Some? && EffectKey(k, source.value) in db.effects then db.effects[EffectKey(k, source.value)] else None
  }

  /** A read returns the effect of its source. */
  lemma ReadsFromSource(w: World, db: Db, m: Id, k: RecordKey)
    requires Sound(w) && m in w.dag
    ensures ReadDb(w, db, m, k) == EffectOf(db, k, ReadSource(w, db, m, k))
  {
    var seen := Writers(db, k) * Past(w, m);
    if seen != {} {
      var g := Greatest(w.less, w.dag.Keys, seen);
      assert g in Writers(db, k);
      assert EffectKey(k, g) in db.effects;
    }
  }

  lemma SeenAreAncestors(w: World, db: Db, m: Id, k: RecordKey)
    requires Sound(w) && m in w.dag
    ensures Writers(db, k) * Past(w, m) <= AncestorWriters(w, db, m, k)
  {
    forall a | a in Past(w, m) ensures Reaches(w.dag, m, a) && a != m {
      PastIsAncestors(w, m, a);
    }
  }

  /** A chain of stored links leads from some parent of m to a. */
  ghost predicate ParentHops(w: World, m: Id, a: Id)
    requires Sound(w) && m in w.dag && a in w.dag
  {
    ParentsInWorld(w, m);
    SomeHops(w.index, w.dag[m], a)
  }

  /** The ancestor check confirms exactly what stored links lead to. */
  lemma SeesIffHops(w: World, m: Id, a: Id)
    requires Sound(w) && m in w.dag && a in w.dag
    ensures Sees(w, m, a) <==> ParentHops(w, m, a)
  {
    ParentsInWorld(w, m);
    QueryParentsHops(w.index, w.dag[m], a, {});
  }

  /** A read finds the greatest effect among the ancestors if and only if there is none or
      stored links lead from some parent to that one. */
  lemma ReadsLastWriterIff(w: World, db: Db, m: Id, k: RecordKey)
    requires Sound(w) && m in w.dag
    ensures ReadSource(w, db, m, k) == LastWriter(w, db, m, k)
            <==> (LastWriter(w, db, m, k).Some? ==> ParentHops(w, m, LastWriter(w, db, m, k).value))
  {
    var seen, writers := Writers(db, k) * Past(w, m), AncestorWriters(w, db, m, k);
    SeenAreAncestors(w, db, m, k);
    if writers != {} {
      var g := Greatest(w.less, w.dag.Keys, writers);
      SeesIffHops(w, m, g);
      if Sees(w, m, g) {
        assert IsGreatest(w.less, g, seen);
        GreatestUnique(w.less, w.dag.Keys, seen, g, Greatest(w.less, w.dag.Keys, seen));
      }
    }
  }

  /** Over exact rows every read returns the greatest effect among the ancestors, or null if
      they have none. */
  lemma ExactRowsReadLastWriter(w: World, db: Db, m: Id, k: RecordKey)
    requires Sound(w) && RowsExact(w.dag, w.index) && m in w.dag
    ensures ReadSource(w, db, m, k) == LastWriter(w, db, m, k)
    ensures ReadDb(w, db, m, k) == EffectOf(db, k, LastWriter(w, db, m, k))
  {
    ReadsLastWriterIff(w, db, m, k);
    ReadsFromSource(w, db, m, k);
    if LastWriter(w, db, m, k).Some? {
      PastIsAllAncestors(w, m, LastWriter(w, db, m, k).value);
      SeesIffHops(w, m, LastWriter(w, db, m, k).value);
    }
  }
}
