/** The sliding window that submits user updates to an executor and waits for them in whatever order they complete. */
module SyncBatch {
  import opened Options

  type UserId = nat

  /** What the scheduler does with the executor. A submission is known by its number; a completion also holds what the
      `running` field of the progress entry read right after it. */
  datatype Event =
    | Submitted(task: nat, user: UserId)
    | Completed(task: nat, user: UserId, running: bool)

  // ---- The state a history of events leads to

  function Submissions(events: seq<Event>): nat {
    if events == [] then 0
    else Submissions(events[..|events| - 1]) + if events[|events| - 1].Submitted? then 1 else 0
  }

  function Completions(events: seq<Event>): seq<UserId> {
    if events == [] then []
    else Completions(events[..|events| - 1]) + if events[|events| - 1].Completed? then [events[|events| - 1].user] else []
  }

  /** The tasks that are neither popped nor yet to come. */
  function Pending(events: seq<Event>): map<nat, UserId> {
    if events == [] then map[]
    else
      var before := Pending(events[..|events| - 1]);
      match events[|events| - 1]
      case Submitted(task, user) => before[task := user]
      case Completed(task, _, _) => before - {task}
  }

  /** What the scheduler may do next: submit the next user while there is room, or else wait for any pending task. It never
      waits while it could submit. */
  predicate Allowed(users: seq<UserId>, window: nat, events: seq<Event>, e: Event) {
    var pending, next := Pending(events), Submissions(events);
    match e
    case Submitted(task, user) => task == next < |users| && user == users[next] && |pending| < window
    case Completed(task, user, _) =>
      && task in pending && user == pending[task]
      && (next >= |users| || |pending| >= window)
  }

  predicate History(users: seq<UserId>, window: nat, events: seq<Event>) {
    events == [] ||
    (History(users, window, events[..|events| - 1])
     && Allowed(users, window, events[..|events| - 1], events[|events| - 1]))
  }

  predicate Finished(users: seq<UserId>, events: seq<Event>) {
    Submissions(events) >= |users| && Pending(events) == map[]
  }

  // ---- Every history, in any order of completion

  lemma Extended(events: seq<Event>, e: Event)
    ensures (events + [e])[..|events + [e]| - 1] == events
    ensures (events + [e])[|events + [e]| - 1] == e
  {
  }

  lemma RemovedSize(m: map<nat, UserId>, task: nat)
    requires task in m
    ensures |m - {task}| == |m| - 1
  {
    assert (m - {task}).Keys == m.Keys - {task};
  }

  lemma AddedSize(m: map<nat, UserId>, task: nat, user: UserId)
    requires task !in m
    ensures |m[task := user]| == |m| + 1
  {
    assert m[task := user].Keys == m.Keys + {task};
  }

  /** Pending tasks are earlier submissions of the users of their numbers, the window is never exceeded, and every event
      brings the end one step nearer. */
  lemma {:induction false} HistoryInvariant(users: seq<UserId>, window: nat, events: seq<Event>)
    requires History(users, window, events)
    ensures Submissions(events) <= |users|
    ensures forall task | task in Pending(events) :: task < Submissions(events) && Pending(events)[task] == users[task]
    ensures |Pending(events)| <= window
    ensures |events| == Submissions(events) + |Completions(events)|
    ensures |events| + 2 * (|users| - Submissions(events)) + |Pending(events)| == 2 * |users|
  {
    if events != [] {
      var before, e := events[..|events| - 1], events[|events| - 1];
      HistoryInvariant(users, window, before);
      match e
      case Submitted(task, user) => AddedSize(Pending(before), task, user);
      case Completed(task, _, _) => RemovedSize(Pending(before), task);
    }
  }

  /** At no time are more than `window` tasks pending. */
  lemma WindowIsKept(users: seq<UserId>, window: nat, events: seq<Event>, n: nat)
    requires History(users, window, events) && n <= |events|
    ensures |Pending(events[..n])| <= window
  {
    PrefixIsHistory(users, window, events, n);
    HistoryInvariant(users, window, events[..n]);
  }

  lemma {:induction false} PrefixIsHistory(users: seq<UserId>, window: nat, events: seq<Event>, n: nat)
    requires History(users, window, events) && n <= |events|
    ensures History(users, window, events[..n])
  {
    if n < |events| {
      PrefixIsHistory(users, window, events[..|events| - 1], n);
      assert events[..|events| - 1][..n] == events[..n];
    } else {
      assert events[..n] == events;
    }
  }

  /** The users of the pending tasks below a number. */
  function Bag(m: map<nat, UserId>, n: nat): multiset<UserId> {
    if n == 0 then multiset{} else Bag(m, n - 1) + One(m, n - 1)
  }

  function One(m: map<nat, UserId>, task: nat): multiset<UserId> {
    if task in m then multiset{m[task]} else multiset{}
  }

  lemma {:induction false} BagAdd(m: map<nat, UserId>, n: nat, user: UserId, k: nat)
    requires k <= n
    ensures Bag(m[n := user], k) == Bag(m, k)
  {
    if k > 0 {
      BagAdd(m, n, user, k - 1);
    }
  }

  ghost predicate SameBut(m: map<nat, UserId>, m': map<nat, UserId>, task: nat) {
    task !in m' && forall k: nat | k != task :: One(m', k) == One(m, k)
  }

  lemma {:induction false} BagWithoutLater(m: map<nat, UserId>, m': map<nat, UserId>, task: nat, n: nat)
    requires SameBut(m, m', task) && n <= task
    ensures Bag(m', n) == Bag(m, n)
  {
    if n > 0 {
      BagWithoutLater(m, m', task, n - 1);
    }
  }

  lemma Exchange(a: multiset<UserId>, b: multiset<UserId>, c: multiset<UserId>)
    ensures a + b + c == a + c + b
  {
  }

  lemma {:induction false} BagRemove(m: map<nat, UserId>, m': map<nat, UserId>, task: nat, n: nat)
    requires SameBut(m, m', task) && task < n
    ensures Bag(m', n) + One(m, task) == Bag(m, n)
  {
    var before, before' := Bag(m, n - 1), Bag(m', n - 1);
    if n - 1 == task {
      BagWithoutLater(m, m', task, task);
      assert before' + multiset{} == before';
    } else {
      BagRemove(m, m', task, n - 1);
      Exchange(before', One(m, n - 1), One(m, task));
    }
  }

  lemma {:induction false} BagOfEmpty(n: nat)
    ensures Bag(map[], n) == multiset{}
  {
    if n > 0 {
      BagOfEmpty(n - 1);
    }
  }

  /** Conservation: whoever was submitted has completed or is pending, each as often as submitted. */
  predicate Conserved(users: seq<UserId>, completed: seq<UserId>, pending: map<nat, UserId>, n: nat) {
    n <= |users| && multiset(completed) + Bag(pending, n) == multiset(users[..n])
  }

  lemma SubmitConserves(users: seq<UserId>, completed: seq<UserId>, pending: map<nat, UserId>, n: nat)
    requires n < |users| && Conserved(users, completed, pending, n)
    ensures Conserved(users, completed, pending[n := users[n]], n + 1)
  {
    BagAdd(pending, n, users[n], n);
    assert users[..n + 1] == users[..n] + [users[n]];
  }

  lemma CompleteConserves(users: seq<UserId>, completed: seq<UserId>, pending: map<nat, UserId>, n: nat, task: nat)
    requires Conserved(users, completed, pending, n) && task in pending && task < n
    ensures Conserved(users, completed + [pending[task]], pending - {task}, n)
  {
    BagRemove(pending, pending - {task}, task, n);
    assert multiset(completed + [pending[task]]) == multiset(completed) + multiset{pending[task]};
  }

  lemma PendingWasSubmitted(users: seq<UserId>, window: nat, events: seq<Event>, task: nat)
    requires History(users, window, events) && task in Pending(events)
    ensures task < Submissions(events)
  {
    HistoryInvariant(users, window, events);
  }

  /** Everyone a history submitted is accounted for. */
  ghost predicate NobodyLost(users: seq<UserId>, events: seq<Event>) {
    Conserved(users, Completions(events), Pending(events), Submissions(events))
  }

  lemma SubmittedKeeps(users: seq<UserId>, before: seq<Event>, e: Event)
    requires NobodyLost(users, before) && e.Submitted?
    requires e.task == Submissions(before) < |users| && e.user == users[e.task]
    ensures NobodyLost(users, before + [e])
  {
    var n, pending := Submissions(before), Pending(before);
    Extended(before, e);
    SubmitConserves(users, Completions(before), pending, n);
    assert Completions(before + [e]) == Completions(before);
    assert Pending(before + [e]) == pending[n := users[n]];
  }

  lemma CompletedKeeps(users: seq<UserId>, before: seq<Event>, e: Event)
    requires NobodyLost(users, before) && e.Completed?
    requires e.task in Pending(before) && e.user == Pending(before)[e.task] && e.task < Submissions(before)
    ensures NobodyLost(users, before + [e])
  {
    Extended(before, e);
    CompleteConserves(users, Completions(before), Pending(before), Submissions(before), e.task);
    assert Completions(before + [e]) == Completions(before) + [e.user];
    assert Pending(before + [e]) == Pending(before) - {e.task};
  }

  lemma {:induction false} NobodyIsLost(users: seq<UserId>, window: nat, events: seq<Event>)
    requires History(users, window, events)
    ensures NobodyLost(users, events)
  {
    if events == [] {
      assert users[..0] == [];
    } else {
      var before, e := events[..|events| - 1], events[|events| - 1];
      NobodyIsLost(users, window, before);
      assert events == before + [e];
      if e.Submitted? {
        SubmittedKeeps(users, before, e);
      } else {
        PendingWasSubmitted(users, window, before, e.task);
        CompletedKeeps(users, before, e);
      }
    }
  }

  /** A finished history completed every user exactly as often as it was asked for, after exactly two events a user. */
  lemma FinishedCompletesAll(users: seq<UserId>, window: nat, events: seq<Event>)
    requires History(users, window, events) && Finished(users, events)
    ensures multiset(Completions(events)) == multiset(users)
    ensures |events| == 2 * |users|
  {
    HistoryInvariant(users, window, events);
    NobodyIsLost(users, window, events);
    BagOfEmpty(Submissions(events));
    assert users[..|users|] == users;
  }

  /** The scheduler is never stuck: a history that is not finished can go on, with any pending task if it has to wait. */
  lemma NeverStuck(users: seq<UserId>, window: nat, events: seq<Event>) returns (e: Event)
    requires window > 0 && History(users, window, events) && !Finished(users, events)
    ensures History(users, window, events + [e])
  {
    var pending, next := Pending(events), Submissions(events);
    HistoryInvariant(users, window, events);
    if next < |users| && |pending| < window {
      e := Submitted(next, users[next]);
    } else {
      assert pending.Keys != {};
      var task := AnElement(pending.Keys);
      e := Completed(task, pending[task], true);
    }
    Extended(events, e);
  }

  /** What a reader of the progress sees over a history: a known operation reads as finished from the completion on that
      makes up the scheduled number, and an operation without an entry always reads as running. */
  predicate Tells(known: bool, scheduled: nat, events: seq<Event>) {
    forall k | 0 <= k < |events| && events[k].Completed? ::
      !events[k].running <==> known && |Completions(events[..k + 1])| >= scheduled
  }

  lemma TellsExtended(known: bool, scheduled: nat, events: seq<Event>, e: Event)
    requires Tells(known, scheduled, events)
    requires e.Completed? ==> (!e.running <==> known && |Completions(events)| + 1 >= scheduled)
    ensures Tells(known, scheduled, events + [e])
  {
    var longer := events + [e];
    Extended(events, e);
    assert longer[..|events| + 1] == longer;
    forall k | 0 <= k < |longer| && longer[k].Completed?
      ensures !longer[k].running <==> known && |Completions(longer[..k + 1])| >= scheduled
    {
      if k < |events| {
        assert longer[..k + 1] == events[..k + 1] && longer[k] == events[k];
      }
    }
  }

  /** As many completions as users leave no event to come. */
  lemma LastCompletion(users: seq<UserId>, window: nat, events: seq<Event>, k: nat)
    requires History(users, window, events) && Finished(users, events) && k < |events|
    ensures |Completions(events[..k + 1])| >= |users| <==> k == |events| - 1
  {
    var upTo := events[..k + 1];
    PrefixIsHistory(users, window, events, k + 1);
    HistoryInvariant(users, window, upTo);
    FinishedCompletesAll(users, window, events);
    HistoryInvariant(users, window, events);
    assert events[..|events|] == events;
  }

  /** When as many are scheduled as there are users, what is read turns to finished with the very last event and no
      earlier one, in whatever order the tasks complete. */
  lemma FinishedAtTheEnd(users: seq<UserId>, window: nat, events: seq<Event>, k: nat)
    requires History(users, window, events) && Finished(users, events) && Tells(true, |users|, events)
    requires k < |events| && events[k].Completed?
    ensures !events[k].running <==> k == |events| - 1
  {
    LastCompletion(users, window, events, k);
  }

  // ---- The scheduler

  /** The progress entry of one operation; `known` is false when there is none. */
  class Progress {
    const known: bool
    var scheduled: nat
    var done: nat
    var running: bool

    constructor (known: bool)
      ensures this.known == known && done == 0 && running
    {
      this.known, scheduled, done, running := known, 0, 0, true;
    }

    method MarkFinished()
      modifies this
      ensures scheduled == old(scheduled) && done == old(done)
      ensures running == (old(running) && !known)
    {
      if known {
        running := false;
      }
    }

    method OnDone()
      modifies this
      ensures scheduled == old(scheduled)
      ensures done == old(done) + if known then 1 else 0
      ensures running == (old(running) && !(known && done >= scheduled))
    {
      if known {
        done := done + 1;
        if done >= scheduled {
          MarkFinished();
        }
      }
    }
  }

  /** The entry counts the completions, and reads as running until there are as many as were scheduled; an operation
      without an entry reads as running. */
  predicate Tracks(p: Progress, completed: nat, scheduled: nat)
    reads p
  {
    && p.scheduled == scheduled
    && (p.known ==> p.done == completed && p.running == (completed == 0 || completed < scheduled))
    && (!p.known ==> p.running)
  }

  /** The variables of the scheduler are the state its events lead to. */
  ghost predicate At(users: seq<UserId>, window: nat, events: seq<Event>, idx: nat, pending: map<nat, UserId>) {
    && History(users, window, events)
    && idx == Submissions(events) && pending == Pending(events)
    && idx <= |users| && |pending| <= window
    && |events| + 2 * (|users| - idx) + |pending| == 2 * |users|
  }

  lemma SubmitStep(users: seq<UserId>, window: nat, events: seq<Event>, idx: nat, pending: map<nat, UserId>)
    requires At(users, window, events, idx, pending) && idx < |users| && |pending| < window
    ensures var e := Submitted(idx, users[idx]);
            && At(users, window, events + [e], idx + 1, pending[idx := users[idx]])
            && Completions(events + [e]) == Completions(events)
  {
    var e := Submitted(idx, users[idx]);
    Extended(events, e);
    HistoryInvariant(users, window, events + [e]);
  }

  lemma CompleteStep(users: seq<UserId>, window: nat, events: seq<Event>, idx: nat, pending: map<nat, UserId>, task: nat, running: bool)
    requires At(users, window, events, idx, pending) && task in pending
    requires idx == |users| || |pending| == window
    ensures var e := Completed(task, pending[task], running);
            && At(users, window, events + [e], idx, pending - {task})
            && |Completions(events + [e])| == |Completions(events)| + 1
  {
    var e := Completed(task, pending[task], running);
    Extended(events, e);
    HistoryInvariant(users, window, events + [e]);
  }

  /** Every completion is logged with what the progress entry reads after it. */
  method BatchSyncUsers(users: seq<UserId>, concurrency: int, progress: Progress) returns (ghost events: seq<Event>)
    requires Tracks(progress, 0, progress.scheduled)
    modifies progress
    ensures History(users, Max(1, concurrency) * 2, events) && Finished(users, events)
    ensures Tells(progress.known, old(progress.scheduled), events)
    ensures Tracks(progress, |users|, old(progress.scheduled))
  {
    var window := Max(1, concurrency) * 2;
    ghost var scheduled := progress.scheduled;
    var pending: map<nat, UserId> := map[];
    var idx := 0;
    events := [];
    while idx < |users| || pending != map[]
      invariant At(users, window, events, idx, pending)
      invariant Tells(progress.known, scheduled, events) && Tracks(progress, |Completions(events)|, scheduled)
      decreases 2 * (|users| - idx) + |pending|
    {
      ghost var length := |events|;
      while idx < |users| && |pending| < window
        invariant At(users, window, events, idx, pending)
        invariant Tells(progress.known, scheduled, events) && Tracks(progress, |Completions(events)|, scheduled)
        invariant |events| >= length && (idx < |users| || pending != map[])
        decreases |users| - idx
      {
        SubmitStep(users, window, events, idx, pending);
        TellsExtended(progress.known, scheduled, events, Submitted(idx, users[idx]));
        events := events + [Submitted(idx, users[idx])];
        pending := pending[idx := users[idx]];
        idx := idx + 1;
      }
      assert pending.Keys != {};
      var task, _ := TakeOne(pending.Keys);
      var user := pending[task];
      progress.OnDone();
      CompleteStep(users, window, events, idx, pending, task, progress.running);
      TellsExtended(progress.known, scheduled, events, Completed(task, user, progress.running));
      events := events + [Completed(task, user, progress.running)];
      pending := pending - {task};
    }
    HistoryInvariant(users, window, events);
  }

  /** The batch step of the driver: the progress reads as finished with all users done. */
  method RunBatch(users: seq<UserId>, concurrency: int, progress: Progress)
    requires progress.done == 0 && progress.running
    modifies progress
    ensures progress.known ==> progress.scheduled == |users| && progress.done == |users| && !progress.running
  {
    if progress.known {
      progress.scheduled := |users|;
    }
    if users != [] {
      ghost var events := BatchSyncUsers(users, concurrency, progress);
    } else {
      progress.MarkFinished();
    }
  }
}
