/** Reconciling the worker services of a machine with fleet.toml. */
module Fleet {
  import opened Strings
  import opened Slugs

  // ---- Service names ---------------------------------------------------------------------

  function ServiceName(kind: string, role: string, instance: string): string {
    "BitCadence-" + kind + "-" + Slug(role) + if instance == "" then "" else "-" + Slug(instance)
  }

  /** What _installed_worker_service_names keeps. */
  predicate IsWorkerService(name: string) {
    "bitcadence-wake-" <= Slug(name) || "bitcadence-poll-" <= Slug(name)
  }

  datatype Mode = WakerMode | PollMode | Off

  /** A worker, by the names of its two possible services. */
  datatype Worker = Worker(wake: string, poll: string, mode: Mode)

  function Configured(role: string, instance: string, mode: Mode): Worker {
    Worker(ServiceName("wake", role, instance), ServiceName("poll", role, instance), mode)
  }

  predicate Recognised(w: Worker) {
    w.wake != w.poll && IsWorkerService(w.wake) && IsWorkerService(w.poll)
  }

  function Names(w: Worker): set<string> {
    {w.wake, w.poll}
  }

  /** active_service_name, as a set of at most one. */
  function Active(w: Worker): set<string> {
    match w.mode
    case WakerMode => {w.wake}
    case PollMode => {w.poll}
    case Off => {}
  }

  function AllActive(workers: seq<Worker>): set<string> {
    if workers == [] then {} else AllActive(workers[..|workers| - 1]) + Active(workers[|workers| - 1])
  }

  // ---- The names of services -------------------------------------------------------------

  /** What tells the services of two workers apart: the words of the role, then those of the instance. */
  function NameWords(role: string, instance: string): (words: seq<string>)
    ensures words != []
  {
    Words(role) + if instance == "" then [] else Words(instance)
  }

  lemma {:induction false} JoinedBoth(a: seq<string>, b: seq<string>)
    requires a != [] && b != []
    ensures Joined(a + b) == Joined(a) + (['-'] + Joined(b))
  {
    if |a| == 1 {
      assert (a + b)[1..] == b;
    } else {
      JoinedBoth(a[1..], b);
      assert (a + b)[1..] == a[1..] + b;
    }
  }

  lemma NameJoined(role: string, instance: string)
    ensures Slug(role) + (if instance == "" then "" else "-" + Slug(instance)) == Joined(NameWords(role, instance))
  {
    SlugIsWords(role);
    if instance == "" {
      assert NameWords(role, instance) == Words(role);
    } else {
      SlugIsWords(instance);
      JoinedBoth(Words(role), Words(instance));
    }
  }

  /** The name of a service is BitCadence, the kind, and the worker's words, joined by dashes. */
  lemma ServiceIsWords(kind: string, role: string, instance: string)
    ensures ServiceName(kind, role, instance) == Joined(["BitCadence", kind] + NameWords(role, instance))
  {
    NameJoined(role, instance);
    JoinedBoth(["BitCadence", kind], NameWords(role, instance));
    JoinedTwo("BitCadence", kind);
    NameParts(kind, Slug(role), if instance == "" then "" else "-" + Slug(instance));
  }

  lemma JoinedTwo(a: string, b: string)
    ensures Joined([a, b]) == a + (['-'] + b)
  {
    assert [a, b][1..] == [b];
  }

  lemma NameParts(kind: string, role: string, instance: string)
    ensures "BitCadence-" + kind + "-" + role + instance == "BitCadence" + (['-'] + kind) + (['-'] + (role + instance))
  {
    assert "BitCadence-" == "BitCadence" + ['-'];
  }

  lemma NameAreWords(kind: string, role: string, instance: string, bitcadence: string)
    requires IsWord(kind) && bitcadence == "BitCadence"
    ensures AreWords([bitcadence, kind] + NameWords(role, instance))
  {
    WordsAreWords(role);
    WordsAreWords(instance);
  }

  /** Two services have one name exactly when they are of one kind and their workers have the same words,
      however these are spread over role and instance. */
  lemma SameNameExactly(kind: string, role: string, instance: string, other: string, role': string, instance': string)
    requires IsWord(kind) && IsWord(other)
    ensures ServiceName(kind, role, instance) == ServiceName(other, role', instance')
      <==> kind == other && NameWords(role, instance) == NameWords(role', instance')
  {
    var a := ["BitCadence", kind] + NameWords(role, instance);
    var b := ["BitCadence", other] + NameWords(role', instance');
    ServiceIsWords(kind, role, instance);
    ServiceIsWords(other, role', instance');
    NameAreWords(kind, role, instance, "BitCadence");
    NameAreWords(other, role', instance', "BitCadence");
    if Joined(a) == Joined(b) {
      JoinedInjective(a, b);
      assert a[1] == kind && b[1] == other;
      assert a[2..] == NameWords(role, instance) && b[2..] == NameWords(role', instance');
    }
  }

  /** A name is taken for a worker service exactly when its words are "bitcadence", "wake" or "poll", and
      something more. */
  lemma WorkerServiceExactly(name: string)
    ensures IsWorkerService(name)
      <==> |Words(name)| >= 3 && Words(name)[0] == "bitcadence"
           && (Words(name)[1] == "wake" || Words(name)[1] == "poll")
  {
    SlugIsWords(name);
    WordsAreWords(name);
    LiteralWords("bitcadence", "wake", "poll");
    StartsWith(Words(name), "bitcadence", "wake", "bitcadence-wake-");
    StartsWith(Words(name), "bitcadence", "poll", "bitcadence-poll-");
  }

  lemma LiteralWords(first: string, wake: string, poll: string)
    requires first == "bitcadence" && wake == "wake" && poll == "poll"
    ensures IsWord(first) && IsWord(wake) && IsWord(poll)
  {
  }

  lemma StartsWith(words: seq<string>, first: string, second: string, prefix: string)
    requires words != [] && AreWords(words) && prefix == first + "-" + second + "-" && IsWord(first) && IsWord(second)
    ensures prefix <= Joined(words) <==> |words| >= 3 && words[0] == first && words[1] == second
  {
    TwoDashes(first, second);
    StartWords(words, first, second);
  }

  lemma TwoDashes(first: string, second: string)
    ensures first + "-" + second + "-" == first + (['-'] + (second + (['-'] + "")))
  {
  }

  lemma StartWords(words: seq<string>, first: string, second: string)
    requires words != [] && AreWords(words) && IsWord(first) && IsWord(second)
    ensures first + (['-'] + (second + (['-'] + ""))) <= Joined(words)
      <==> |words| >= 3 && words[0] == first && words[1] == second
  {
    PrefixWord(first, second + (['-'] + ""), words);
    if |words| >= 2 {
      PrefixWord(second, "", words[1..]);
    }
  }

  // ---- Names of workers are worker services ----------------------------------------------

  lemma {:induction false} RunsJoined(words: seq<string>)
    requires AreWords(words)
    ensures Runs(Joined(words)) == words
  {
    if |words| == 1 {
      RunsOfWord(words[0], "");
      assert words[0] + "" == words[0] && words == [words[0]] + [];
    } else if |words| > 1 {
      RunsJoined(words[1..]);
      RunsOfWord(words[0], ['-'] + Joined(words[1..]));
      assert (['-'] + Joined(words[1..]))[1..] == Joined(words[1..]);
      assert words == [words[0]] + words[1..];
    }
  }

  lemma RunsOfWord(word: string, r: string)
    requires IsWord(word) && (r == "" || !IsAlnum(r[0]))
    ensures Runs(word + r) == [word] + Runs(r)
  {
    RunOfWord(word, r);
    assert (word + r)[..|word|] == word && (word + r)[|word|..] == r;
  }

  lemma {:induction false} RunOfWord(word: string, r: string)
    requires (forall i :: 0 <= i < |word| ==> IsAlnum(word[i])) && (r == "" || !IsAlnum(r[0]))
    ensures RunLength(word + r) == |word|
  {
    if word == "" {
      assert word + r == r;
    } else {
      assert (word + r)[1..] == word[1..] + r;
      RunOfWord(word[1..], r);
    }
  }

  lemma LowNames(bitcadence: string, low: string, kind: string)
    requires bitcadence == "BitCadence" && low == "bitcadence" && (kind == "wake" || kind == "poll")
    ensures Lower(bitcadence) == low && Lower(kind) == kind && IsWord(kind)
  {
    assert forall i :: 0 <= i < |bitcadence| ==> LowerChar(bitcadence[i]) == low[i];
  }

  lemma KindRecognised(kind: string, role: string, instance: string)
    requires kind == "wake" || kind == "poll"
    ensures IsWorkerService(ServiceName(kind, role, instance))
  {
    var words := ["BitCadence", kind] + NameWords(role, instance);
    LowNames("BitCadence", "bitcadence", kind);
    ServiceIsWords(kind, role, instance);
    NameAreWords(kind, role, instance, "BitCadence");
    RunsJoined(words);
    WorkerServiceExactly(ServiceName(kind, role, instance));
  }

  /** A worker's two services have different names, and both are recognised as worker services. */
  lemma ConfiguredRecognised(role: string, instance: string, mode: Mode)
    ensures Recognised(Configured(role, instance, mode))
  {
    KindRecognised("wake", role, instance);
    KindRecognised("poll", role, instance);
    KindsDiffer("wake", "poll");
    SameNameExactly("wake", role, instance, "poll", role, instance);
  }

  lemma KindsDiffer(wake: string, poll: string)
    requires wake == "wake" && poll == "poll"
    ensures wake != poll && IsWord(wake) && IsWord(poll)
  {
    assert wake[0] != poll[0];
  }

  // ---- Reconciliation --------------------------------------------------------------------

  /** One worker's turn, when nothing fails. */
  function Turn(installed: set<string>, w: Worker): set<string> {
    installed - Names(w) + Active(w)
  }

  function Turns(installed: set<string>, workers: seq<Worker>): set<string> {
    if workers == [] then installed
    else Turn(Turns(installed, workers[..|workers| - 1]), workers[|workers| - 1])
  }

  /** The last worker with this service name wants it installed. */
  predicate Survives(workers: seq<Worker>, name: string) {
    if workers == [] then false
    else if name in Names(workers[|workers| - 1]) then name in Active(workers[|workers| - 1])
    else Survives(workers[..|workers| - 1], name)
  }

  lemma {:induction false} TurnsExactly(installed: set<string>, workers: seq<Worker>, name: string)
    ensures name in Turns(installed, workers)
        <==> if exists w :: w in workers && name in Names(w) then Survives(workers, name) else name in installed
  {
    if workers != [] {
      var front, last := workers[..|workers| - 1], workers[|workers| - 1];
      TurnsExactly(installed, front, name);
      assert forall w :: w in workers <==> w in front || w == last;
    }
  }

  lemma {:induction false} ActiveIsNamed(workers: seq<Worker>, name: string)
    ensures name in AllActive(workers) <==> exists w :: w in workers && name in Active(w)
  {
    if workers != [] {
      ActiveIsNamed(workers[..|workers| - 1], name);
      assert forall w :: w in workers <==> w in workers[..|workers| - 1] || w == workers[|workers| - 1];
    }
  }

  /** The worker services left after a run that does not fail. */
  function Reconciled(installed: set<string>, workers: seq<Worker>): set<string> {
    Turns(installed, workers) * AllActive(workers)
  }

  /** From any starting point, the services left are exactly the configured active ones, if and only
      if no active service is taken down again by a later worker of the same service name. */
  lemma ReconciledExactly(installed: set<string>, workers: seq<Worker>)
    ensures Reconciled(installed, workers) == AllActive(workers)
        <==> forall name :: name in AllActive(workers) ==> Survives(workers, name)
  {
    forall name | name in AllActive(workers)
      ensures name in Reconciled(installed, workers) <==> Survives(workers, name)
    {
      ActiveIsNamed(workers, name);
      TurnsExactly(installed, workers, name);
    }
  }

  ghost predicate NoCollisions(workers: seq<Worker>) {
    forall i, j :: 0 <= i < j < |workers| ==> Names(workers[i]) !! Names(workers[j])
  }

  lemma NamedOnce(workers: seq<Worker>, i: nat, w: Worker, name: string)
    requires NoCollisions(workers) && i < |workers| && w in workers
    ensures name in Names(workers[i]) && name in Names(w) ==> w == workers[i]
  {
    var j :| 0 <= j < |workers| && workers[j] == w;
  }

  lemma {:induction false} SurvivesWithoutCollisions(workers: seq<Worker>, name: string)
    requires NoCollisions(workers) && name in AllActive(workers)
    ensures Survives(workers, name)
  {
    var front, last := workers[..|workers| - 1], workers[|workers| - 1];
    if name !in Active(last) {
      ActiveIsNamed(front, name);
      var w :| w in front && name in Active(w);
      NamedOnce(workers, |workers| - 1, w, name);
      SurvivesWithoutCollisions(front, name);
    }
  }

  /** When no two workers share a service name, any run that does not fail leaves exactly the
      configured services. */
  lemma ReconciledWithoutCollisions(installed: set<string>, workers: seq<Worker>)
    requires NoCollisions(workers)
    ensures Reconciled(installed, workers) == AllActive(workers)
  {
    forall name | name in AllActive(workers) ensures Survives(workers, name) {
      SurvivesWithoutCollisions(workers, name);
    }
    ReconciledExactly(installed, workers);
  }

  /** What is left is one service for each worker that is on, of the kind its mode asks for. */
  lemma ReconciledByMode(installed: set<string>, workers: seq<Worker>, w: Worker)
    requires NoCollisions(workers) && w in workers && w.wake != w.poll
    ensures var after := Reconciled(installed, workers);
      (w.wake in after <==> w.mode.WakerMode?) && (w.poll in after <==> w.mode.PollMode?)
  {
    ReconciledWithoutCollisions(installed, workers);
    forall name | name in Names(w) ensures name in AllActive(workers) <==> name in Active(w) {
      ActiveIsNamed(workers, name);
      if o :| o in workers && name in Active(o) {
        var i :| 0 <= i < |workers| && workers[i] == w;
        NamedOnce(workers, i, o, name);
      }
    }
    assert w.wake in Names(w) && w.poll in Names(w);
  }

  /** Two workers whose slugs run together share their names: the second one, switched off, takes
      down the first one's service. */
  lemma CollisionLosesService()
    ensures
      var workers := [Configured("a-b", "c", WakerMode), Configured("a", "b-c", Off)];
      workers[0].wake == workers[1].wake && Reconciled({}, workers) != AllActive(workers)
  {
    KindsDiffer("wake", "poll");
    SameName("wake", "a-b", "c", "a", "b-c");
    TakenDown(Configured("a-b", "c", WakerMode), Configured("a", "b-c", Off));
  }

  lemma SameName(kind: string, role: string, instance: string, other: string, rest: string)
    requires role == "a-b" && instance == "c" && other == "a" && rest == "b-c" && IsWord(kind)
    ensures ServiceName(kind, role, instance) == ServiceName(kind, other, rest)
  {
    PairOf(role, "a", "b");
    WordOf(instance);
    WordOf(other);
    PairOf(rest, "b", "c");
    SameNameExactly(kind, role, instance, kind, other, rest);
  }

  lemma PairOf(s: string, a: string, b: string)
    requires |a| == |b| == 1 && 'a' <= a[0] <= 'z' && 'a' <= b[0] <= 'z' && s == a + "-" + b
    ensures Words(s) == [a, b]
  {
    JoinedTwo(a, b);
    RunsOf([a, b], s);
  }

  lemma WordOf(s: string)
    requires |s| == 1 && 'a' <= s[0] <= 'z'
    ensures Words(s) == [s]
  {
    RunsOf([s], s);
  }

  lemma RunsOf(words: seq<string>, s: string)
    requires AreWords(words) && words != [] && s == Joined(words)
    requires forall w :: w in words ==> Lower(w) == w
    ensures Words(s) == words
  {
    RunsJoined(words);
    assert forall i :: 0 <= i < |words| ==> words[i] in words;
  }

  lemma TakenDown(first: Worker, second: Worker)
    requires first.mode.WakerMode? && second.mode.Off? && first.wake == second.wake
    ensures Reconciled({}, [first, second]) != AllActive([first, second])
  {
    var workers := [first, second];
    assert first in workers && first.wake in Active(first);
    ActiveIsNamed(workers, first.wake);
    assert !Survives(workers, first.wake);
    ReconciledExactly({}, workers);
  }

  datatype Outcome = Applied | Refused(name: string)

  function WorkerServices(services: set<string>): set<string> {
    set n | n in services && IsWorkerService(n)
  }

  function NonWorkers(services: set<string>): set<string> {
    set n | n in services && !IsWorkerService(n)
  }

  class Machine {
    var services: set<string>

    /** _uninstall_if_present; `removed` grows by the names taken down. */
    method UninstallIfPresent(names: seq<string>, installed: set<string>, ok: string -> bool)
      returns (outcome: Outcome, left: set<string>, removed: seq<string>)
      modifies this
      ensures outcome.Applied? ==>
        left == installed - (set n | n in names) && services == old(services) - (set n | n in names && n in installed)
        && (removed == [] <==> forall n :: n in names ==> n !in installed)
      ensures outcome.Refused? ==> outcome.name in names && !ok(outcome.name)
      ensures services <= old(services) && old(services) - services <= (set n | n in names && n in installed)
    {
      left, removed := installed, [];
      for i := 0 to |names|
        invariant services <= old(services) && old(services) - services <= (set n | n in names && n in installed)
        invariant left == installed - (set n | n in names[..i])
        invariant services == old(services) - (set n | n in names[..i] && n in installed)
        invariant removed == [] <==> forall n :: n in names[..i] ==> n !in installed
      {
        assert names[..i + 1] == names[..i] + [names[i]];
        if names[i] in left {
          if !ok(names[i]) {
            return Refused(names[i]), left, removed;
          }
          services := services - {names[i]};
          left := left - {names[i]};
          removed := removed + [names[i]];
        }
      }
      assert names[..|names|] == names;
      outcome := Applied;
    }

    /** One worker of the loop in apply_fleet. */
    method TakeTurn(w: Worker, installed: set<string>, ok: string -> bool)
      returns (outcome: Outcome, left: set<string>, removed: seq<string>)
      requires Tracks(services, installed) && Recognised(w)
      modifies this
      ensures outcome.Applied? ==>
        left == Turn(installed, w) && Tracks(services, left) && services - left == old(services) - installed
        && (removed == [] <==> QuietTurn(installed, w))
      ensures outcome.Refused? ==> !ok(outcome.name)
      ensures NonWorkers(services) == NonWorkers(old(services))
    {
      var target := match w.mode case WakerMode => [w.poll] case PollMode => [w.wake] case Off => [w.wake, w.poll];
      ghost var gone := set n | n in target;
      TargetIsInactive(w, target);
      TurnSets(services, installed, w, gone);
      outcome, left, removed := UninstallIfPresent(target, installed, ok);
      OnlyWorkersGone(old(services), services, gone);
      if outcome.Refused? || w.mode.Off? {
        return;
      }
      var name := if w.mode.WakerMode? then w.wake else w.poll;
      if !ok(name) {
        return Refused(name), left, removed;
      }
      services := services + {name};
      left := left + {name};
    }

    /** The loop of apply_fleet over the workers. */
    method AllTurns(workers: seq<Worker>, start: set<string>, ok: string -> bool)
      returns (outcome: Outcome, installed: set<string>, removed: seq<string>)
      requires Tracks(services, start) && forall w :: w in workers ==> Recognised(w)
      modifies this
      ensures outcome.Applied? ==>
        installed == Turns(start, workers) && Tracks(services, installed)
        && services - installed == old(services) - start
        && (removed == [] <==> Quiet(start, workers))
      ensures outcome.Refused? ==> !ok(outcome.name)
      ensures NonWorkers(services) == NonWorkers(old(services))
    {
      installed, removed, outcome := start, [], Applied;
      for i := 0 to |workers|
        invariant NonWorkers(services) == NonWorkers(old(services))
        invariant outcome.Applied? && installed == Turns(start, workers[..i]) && Tracks(services, installed)
        invariant services - installed == old(services) - start
        invariant removed == [] <==> Quiet(start, workers[..i])
      {
        assert workers[..i + 1][..i] == workers[..i] && workers[i] in workers;
        var gone;
        outcome, installed, gone := TakeTurn(workers[i], installed, ok);
        if outcome.Refused? {
          return;
        }
        removed := removed + gone;
      }
      assert workers[..|workers|] == workers;
    }

    /** apply_fleet: a turn for every worker, then whatever is left over goes. Services that are not
        workers are never touched, even by a run that fails half-way, and nothing is taken down
        exactly when every turn is quiet and nothing is left over. */
    method ApplyFleet(workers: seq<Worker>, ok: string -> bool, sorted: set<string> -> seq<string>)
      returns (outcome: Outcome, removed: seq<string>)
      requires forall s: set<string>, n :: n in sorted(s) <==> n in s
      requires forall w :: w in workers ==> Recognised(w)
      modifies this
      ensures outcome.Applied? ==>
        WorkerServices(services) == Reconciled(WorkerServices(old(services)), workers)
        && (removed == [] <==> TakesNothingDown(WorkerServices(old(services)), workers))
      ensures outcome.Refused? ==> !ok(outcome.name)
      ensures NonWorkers(services) == NonWorkers(old(services))
    {
      var start := WorkerServices(services);
      var installed, rest, gone;
      outcome, installed, removed := AllTurns(workers, start, ok);
      if outcome.Refused? {
        return;
      }
      rest := sorted(installed - AllActive(workers));
      ghost var before, leftover := services, installed - AllActive(workers);
      assert (set n | n in rest) == leftover && (set n | n in rest && n in installed) == leftover;
      LeftoversGone(before, start, workers);
      outcome, installed, gone := UninstallIfPresent(rest, installed, ok);
      OnlyWorkersGone(before, services, leftover);
      removed := removed + gone;
    }
  }

  /** `installed` is exactly the worker services among the machine's services. */
  predicate Tracks(services: set<string>, installed: set<string>) {
    installed <= services && WorkerServices(installed) == installed && WorkerServices(services - installed) == {}
  }

  lemma OnlyWorkersGone(before: set<string>, after: set<string>, gone: set<string>)
    requires after <= before && before - after <= gone && forall n :: n in gone ==> IsWorkerService(n)
    ensures NonWorkers(after) == NonWorkers(before)
  {
    forall n | n in NonWorkers(before) ensures n in after {
      assert n !in gone;
    }
  }

  /** Taking down what is left over keeps exactly the active services, and all other services. */
  lemma LeftoversGone(before: set<string>, start: set<string>, workers: seq<Worker>)
    requires (forall n :: n in start ==> IsWorkerService(n)) && forall w :: w in workers ==> Recognised(w)
    requires Tracks(before, Turns(start, workers))
    ensures
      var leftover := Turns(start, workers) - AllActive(workers);
      (forall n :: n in leftover ==> IsWorkerService(n))
      && leftover <= before && WorkerServices(before - leftover) == Reconciled(start, workers)
  {
    var installed := Turns(start, workers);
    TurnsRecognised(start, workers);
    var left := before - (installed - AllActive(workers));
    assert forall n :: n in before - installed && IsWorkerService(n) ==> n in WorkerServices(before - installed);
    assert forall n :: n in WorkerServices(left) <==> n in Reconciled(start, workers);
  }

  lemma TargetIsInactive(w: Worker, target: seq<string>)
    requires Recognised(w)
    requires target == match w.mode case WakerMode => [w.poll] case PollMode => [w.wake] case Off => [w.wake, w.poll]
    ensures (set n | n in target) == Names(w) - Active(w)
  {
  }

  lemma TurnSets(before: set<string>, installed: set<string>, w: Worker, gone: set<string>)
    requires Tracks(before, installed) && Recognised(w) && gone == Names(w) - Active(w) && Active(w) <= Names(w)
    ensures var after, left := before - (gone * installed) + Active(w), installed - gone + Active(w);
      left == Turn(installed, w) && Tracks(after, left) && after - left == before - installed
  {
  }

  predicate QuietTurn(installed: set<string>, w: Worker) {
    (Names(w) - Active(w)) !! installed
  }

  predicate Quiet(start: set<string>, workers: seq<Worker>) {
    workers == []
    || (Quiet(start, workers[..|workers| - 1])
        && QuietTurn(Turns(start, workers[..|workers| - 1]), workers[|workers| - 1]))
  }

  predicate TakesNothingDown(start: set<string>, workers: seq<Worker>) {
    Quiet(start, workers) && Turns(start, workers) <= AllActive(workers)
  }

  lemma {:induction false} TurnsRecognised(start: set<string>, workers: seq<Worker>)
    requires (forall n :: n in start ==> IsWorkerService(n)) && forall w :: w in workers ==> Recognised(w)
    ensures forall n :: n in Turns(start, workers) ==> IsWorkerService(n)
  {
    if workers != [] {
      TurnsRecognised(start, workers[..|workers| - 1]);
      assert workers[|workers| - 1] in workers;
    }
  }

  lemma {:induction false} SettledTurns(workers: seq<Worker>, n: nat)
    requires NoCollisions(workers) && n <= |workers|
    ensures Turns(AllActive(workers), workers[..n]) == AllActive(workers) && Quiet(AllActive(workers), workers[..n])
  {
    if n > 0 {
      SettledTurns(workers, n - 1);
      assert workers[..n][..n - 1] == workers[..n - 1];
      SettledTurn(workers, n - 1);
    }
  }

  /** Once the configured services are what is installed, another run takes nothing down. */
  lemma SecondRunQuiet(workers: seq<Worker>)
    requires NoCollisions(workers)
    ensures TakesNothingDown(AllActive(workers), workers)
  {
    SettledTurns(workers, |workers|);
    assert workers[..|workers|] == workers;
  }

  /** Once the active services are what is installed, a worker's turn changes nothing. */
  lemma SettledTurn(workers: seq<Worker>, i: nat)
    requires NoCollisions(workers) && i < |workers|
    ensures Turn(AllActive(workers), workers[i]) == AllActive(workers)
    ensures (Names(workers[i]) - Active(workers[i])) !! AllActive(workers)
  {
    forall name | name in Names(workers[i]) ensures name in AllActive(workers) <==> name in Active(workers[i]) {
      ActiveIsNamed(workers, name);
      if name in AllActive(workers) {
        var w :| w in workers && name in Active(w);
        NamedOnce(workers, i, w, name);
      }
    }
  }
}
