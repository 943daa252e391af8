/**
  The dependency walk of the make tool over explicit rules: a recursion with a call stack
  against cycles and a cache of the targets that are done.
 */
module Make {
  import opened Prelude

  type Name = string

  /** Modification times of the files that exist. */
  type Files = map<Name, nat>

  /** A rule: its recipe, if it has one, turns the files into other files or fails. */
  datatype Rule = Rule(prereqs: seq<Name>, cmds: bool, recipe: Files -> Option<Files>)

  type Rules = map<Name, Rule>

  function Prereqs(rules: Rules, n: Name): seq<Name> { if n in rules then rules[n].prereqs else [] }

  /** A missing file has time zero. */
  function Mtime(f: Files, n: Name): nat { if n in f then f[n] else 0 }

  // ----- Graphs -----

  /** Every name on the way is a prerequisite of the one before. */
  ghost predicate Path(rules: Rules, s: seq<Name>) {
    forall i :: 0 <= i < |s| - 1 ==> DependsOn(rules, s[i], s[i + 1])
  }

  ghost predicate DependsOn(rules: Rules, n: Name, p: Name) { p in Prereqs(rules, n) }

  ghost predicate Cycle(rules: Rules, s: seq<Name>) { |s| >= 2 && Path(rules, s) && s[0] == s[|s| - 1] }

  ghost predicate Acyclic(rules: Rules) { forall s :: !Cycle(rules, s) }

  /** A recipe changes the file of its own target only. */
  ghost predicate Tidy(rules: Rules) {
    forall n, f, x :: n in rules && rules[n].recipe(f).Some? && x != n ==>
      (x in rules[n].recipe(f).value <==> x in f) && (x in f ==> rules[n].recipe(f).value[x] == f[x])
  }

  /** A set of names with all their prerequisites. */
  ghost predicate Closed(rules: Rules, u: set<Name>) {
    forall n, p :: n in u && DependsOn(rules, n, p) ==> p in u
  }

  /** A path to a name that lies on it already contains a cycle. */
  lemma StackCycle(rules: Rules, s: seq<Name>, n: Name)
    requires Path(rules, s + [n]) && n in s
    ensures !Acyclic(rules)
  {
    var i :| 0 <= i < |s| && s[i] == n;
    var c := (s + [n])[i..];
    forall j | 0 <= j < |c| - 1 ensures DependsOn(rules, c[j], c[j + 1]) {
      assert DependsOn(rules, (s + [n])[i + j], (s + [n])[i + j + 1]);
    }
    assert Cycle(rules, c);
  }

  // ----- The state of a run -----

  /** A recipe that was started, and the prerequisites that were not done by then. */
  datatype Ran = Ran(target: Name, missing: set<Name>)

  /** `cache` says of each target that is done whether it was rebuilt. */
  datatype State = State(stack: seq<Name>, cache: map<Name, bool>, files: Files, log: seq<Ran>)

  /** The recipe of a target that is not phony was started at most once. */
  ghost predicate Once(log: seq<Ran>, phony: set<Name>) {
    forall i, j :: 0 <= i < j < |log| && log[i].target == log[j].target ==> log[i].target in phony
  }

  predicate HasRecipe(rules: Rules, n: Name) { n in rules && rules[n].cmds }

  ghost predicate Logged(log: seq<Ran>, n: Name) { exists i :: 0 <= i < |log| && log[i].target == n }

  /** The recipes that were started are those of the rebuilt targets that have one. */
  ghost predicate RanExactly(rules: Rules, s: State) {
    forall n :: Logged(s.log, n) <==> n in s.cache && s.cache[n] && HasRecipe(rules, n)
  }

  /** The files after the recipes of the log were run one after the other on f0, if none failed. */
  function Replay(rules: Rules, f0: Files, log: seq<Ran>): Option<Files> {
    if log == [] then Some(f0)
    else
      var f := Replay(rules, f0, log[..|log| - 1]);
      var n := log[|log| - 1].target;
      if f.None? || n !in rules then None else rules[n].recipe(f.value)
  }

  /** There is something to make the target from, by the files at the start. */
  predicate Makeable(rules: Rules, phony: set<Name>, f0: Files, n: Name) { n in rules || n in phony || n in f0 }

  /** No recipe was started before its prerequisites were done. */
  ghost predicate Ordered(s: State) { forall i :: 0 <= i < |s.log| ==> s.log[i].missing == {} }

  /** A target that was left alone has only prerequisites that were left alone. */
  ghost predicate NoneStale(rules: Rules, s: State) {
    forall n, p :: n in s.cache && !s.cache[n] && DependsOn(rules, n, p) ==> p in s.cache && !s.cache[p]
  }

  ghost predicate SameFile(f: Files, f': Files, n: Name) {
    (n in f' <==> n in f) && Mtime(f', n) == Mtime(f, n)
  }

  /** A prerequisite asks for a rebuild: it was rebuilt itself, or is newer. */
  ghost predicate Asks(rules: Rules, f0: Files, cache: map<Name, bool>, n: Name, p: Name) {
    DependsOn(rules, n, p) && ((p in cache && cache[p]) || Mtime(f0, p) > Mtime(f0, n))
  }

  /** Why a target is rebuilt, by the files f0 at the start. */
  ghost predicate Wanted(rules: Rules, f0: Files, cache: map<Name, bool>, n: Name) {
    || n !in f0
    || (n in rules && rules[n].prereqs == [] && rules[n].cmds)
    || (exists p :: Asks(rules, f0, cache, n, p))
  }

  /** Files change only with the rebuilding of their targets, a target that is not phony is rebuilt
      if and only if there is a reason to, and all that is done could be made. */
  ghost predicate Exact(rules: Rules, phony: set<Name>, f0: Files, s: State) {
    && (forall n :: !(n in s.cache && s.cache[n]) ==> SameFile(f0, s.files, n))
    && (forall n, p :: n in s.cache && DependsOn(rules, n, p) ==> p in s.cache)
    && (forall n :: n in s.cache && n !in phony ==> s.cache[n] == Wanted(rules, f0, s.cache, n))
    && (forall n :: n in s.cache ==> Makeable(rules, phony, f0, n))
  }

  ghost predicate Inv(rules: Rules, phony: set<Name>, f0: Files, s: State) {
    && Once(s.log, phony)
    && Replay(rules, f0, s.log) == Some(s.files)
    && RanExactly(rules, s)
    && (forall n :: n in s.cache && n in phony ==> s.cache[n])
    && (Acyclic(rules) ==> Ordered(s) && NoneStale(rules, s) && (Tidy(rules) ==> Exact(rules, phony, f0, s)))
  }

  /** What a nested build leaves: the stack, every target that is done, and those in progress. */
  ghost predicate Keeps(s: State, s': State) {
    && s'.stack == s.stack
    && s.log <= s'.log
    && (forall n :: n in s.cache ==> n in s'.cache && s'.cache[n] == s.cache[n])
    && (forall n :: n in s.stack && n !in s.cache ==> n !in s'.cache)
  }

  lemma KeepsTrans(a: State, b: State, c: State)
    requires Keeps(a, b) && Keeps(b, c)
    ensures Keeps(a, c)
  {
  }

  // ----- Finishing a target -----

  /** What is known of the first k prerequisites once they have been built and looked at;
      `needs` says whether one of them asked for a rebuild. */
  ghost predicate Checked(rules: Rules, f0: Files, s: State, target: Name, k: nat, needs: bool, isPhony: bool) {
    && k <= |Prereqs(rules, target)|
    && (Acyclic(rules) ==> forall j :: 0 <= j < k ==> DoneAt(rules, f0, s, target, j, needs, isPhony))
    && (Acyclic(rules) && Tidy(rules) && needs ==> exists p :: Asks(rules, f0, s.cache, target, p))
  }

  ghost predicate DoneAt(rules: Rules, f0: Files, s: State, target: Name, j: nat, needs: bool, isPhony: bool)
    requires j < |Prereqs(rules, target)|
  {
    var p := Prereqs(rules, target)[j];
    p in s.cache && (!needs && !isPhony ==> !s.cache[p] && (Tidy(rules) ==> Mtime(f0, p) <= Mtime(f0, target)))
  }

  lemma AsksKept(rules: Rules, f0: Files, s: State, s': State, target: Name)
    requires Keeps(s, s') && exists p :: Asks(rules, f0, s.cache, target, p)
    ensures exists p :: Asks(rules, f0, s'.cache, target, p)
  {
    var p :| Asks(rules, f0, s.cache, target, p);
    assert Asks(rules, f0, s'.cache, target, p);
  }

  lemma CheckedKept(rules: Rules, f0: Files, s: State, s': State, target: Name, k: nat, needs: bool, isPhony: bool)
    requires Checked(rules, f0, s, target, k, needs, isPhony) && Keeps(s, s')
    ensures Checked(rules, f0, s', target, k, needs, isPhony)
  {
    hide Acyclic, Tidy, Mtime, Asks;
    if Acyclic(rules) {
      forall j | 0 <= j < k ensures DoneAt(rules, f0, s', target, j, needs, isPhony) {
        assert DoneAt(rules, f0, s, target, j, needs, isPhony);
      }
      if Tidy(rules) && needs { AsksKept(rules, f0, s, s', target); }
    }
  }

  /** A target in progress: everything below it on the stack is as it was. */
  ghost predicate Entered(rules: Rules, phony: set<Name>, f0: Files, s0: State, s: State, target: Name) {
    && Inv(rules, phony, f0, s)
    && Keeps(s0.(stack := s0.stack + [target]), s)
    && target !in s0.stack && (target in s0.cache ==> target in phony)
  }

  lemma CacheGrows(rules: Rules, phony: set<Name>, f0: Files, s0: State, s: State, target: Name, built: bool)
    requires Entered(rules, phony, f0, s0, s, target) && (target in phony ==> built)
    ensures Keeps(s0, s.(stack := s0.stack, cache := s.cache[target := built]))
    ensures target in s.cache ==> target in phony && s.cache[target]
  {
    hide Acyclic, Tidy, Once, RanExactly, Ordered, NoneStale, Exact;
    assert target in s0.stack + [target];
    forall n | n in s0.stack ensures n in s0.stack + [target] { }
  }

  /** The prerequisites of a finished target. */
  lemma AllChecked(rules: Rules, f0: Files, s: State, target: Name, needs: bool, isPhony: bool, p: Name)
    requires Acyclic(rules) && Checked(rules, f0, s, target, |Prereqs(rules, target)|, needs, isPhony)
    requires DependsOn(rules, target, p)
    ensures p in s.cache && (!needs && !isPhony ==> !s.cache[p] && (Tidy(rules) ==> Mtime(f0, p) <= Mtime(f0, target)))
  {
    hide Acyclic, Tidy;
    var j :| 0 <= j < |Prereqs(rules, target)| && Prereqs(rules, target)[j] == p;
    assert DoneAt(rules, f0, s, target, j, needs, isPhony);
  }

  /** A new entry of the cache does not change what the others say. */
  lemma WantedSame(rules: Rules, f0: Files, cache: map<Name, bool>, target: Name, built: bool, n: Name)
    requires forall p :: DependsOn(rules, n, p) ==> p in cache
    requires target in cache ==> cache[target] == built
    ensures Wanted(rules, f0, cache[target := built], n) == Wanted(rules, f0, cache, n)
  {
    var c := cache[target := built];
    assert forall p :: DependsOn(rules, n, p) ==> (Asks(rules, f0, c, n, p) <==> Asks(rules, f0, cache, n, p));
    hide Mtime;
    if p :| Asks(rules, f0, c, n, p) { assert Asks(rules, f0, cache, n, p); }
    if p :| Asks(rules, f0, cache, n, p) { assert Asks(rules, f0, c, n, p); }
  }

  /** The reason for the decision about the target itself. */
  ghost predicate Decided(rules: Rules, phony: set<Name>, f0: Files, s: State, target: Name, built: bool) {
    target !in phony ==> built == Wanted(rules, f0, s.cache, target)
  }

  /** The exact description survives the entry of the target. */
  lemma ExactGrows(rules: Rules, phony: set<Name>, f0: Files, s: State, target: Name, built: bool, log: seq<Ran>,
                   stack: seq<Name>, f: Files)
    requires Exact(rules, phony, f0, s) && Decided(rules, phony, f0, s, target, built)
    requires target in s.cache ==> target in phony && s.cache[target] && built
    requires forall p :: DependsOn(rules, target, p) ==> p in s.cache
    requires if built then OnlyTarget(s.files, f, target) else f == s.files
    requires Makeable(rules, phony, f0, target)
    ensures Exact(rules, phony, f0, State(stack, s.cache[target := built], f, log))
  {
    var s' := State(stack, s.cache[target := built], f, log);
    forall n | n in s'.cache && n !in phony ensures s'.cache[n] == Wanted(rules, f0, s'.cache, n) {
      WantedSame(rules, f0, s.cache, target, built, n);
    }
    hide Wanted, DependsOn, Mtime, Makeable;
    forall n | !(n in s'.cache && s'.cache[n]) ensures SameFile(f0, f, n) {
      assert SameFile(f0, s.files, n);
      assert n != target && built ==> SameFile(s.files, f, n);
    }
  }

  /** The prerequisites that are not done. */
  function Missing(rules: Rules, s: State, target: Name): set<Name> {
    set p | p in Prereqs(rules, target) && p !in s.cache
  }

  /** The recipe is started. */
  function Started(rules: Rules, s: State, target: Name): State {
    s.(log := s.log + [Ran(target, Missing(rules, s, target))])
  }

  lemma StartedOnce(rules: Rules, phony: set<Name>, f0: Files, s0: State, s: State, target: Name)
    requires Entered(rules, phony, f0, s0, s, target)
    ensures Once(Started(rules, s, target).log, phony)
  {
    CacheGrows(rules, phony, f0, s0, s, target, true);
    hide Acyclic, Tidy, Exact, NoneStale, Keeps, Missing;
    forall i | 0 <= i < |s.log| && s.log[i].target == target ensures target in phony {
      assert Logged(s.log, target);
    }
  }

  /** The log and the cache grow together. */
  lemma RanGrows(rules: Rules, s: State, target: Name, built: bool, log: seq<Ran>, stack: seq<Name>, f: Files)
    requires RanExactly(rules, s) && (target in s.cache ==> s.cache[target] && built)
    requires log == if built && HasRecipe(rules, target) then Started(rules, s, target).log else s.log
    ensures RanExactly(rules, State(stack, s.cache[target := built], f, log))
  {
    hide Missing, HasRecipe;
    forall n ensures Logged(log, n) <==> Logged(s.log, n) || (n == target && |log| > |s.log|) {
      if i :| 0 <= i < |s.log| && s.log[i].target == n { assert log[i].target == n; }
      if n == target && |log| > |s.log| { assert log[|s.log|].target == n; }
      if i :| 0 <= i < |log| && log[i].target == n && i < |s.log| { assert s.log[i].target == n; }
    }
    hide Logged;
    assert !Logged(s.log, target) || target in s.cache;
  }

  /** The files differ at most in that of the target. */
  ghost predicate OnlyTarget(f: Files, f': Files, target: Name) {
    forall x :: x != target ==> SameFile(f, f', x)
  }

  lemma TidyIf(rules: Rules, f: Files, target: Name)
    requires target in rules
    ensures Tidy(rules) && rules[target].recipe(f).Some? ==> OnlyTarget(f, rules[target].recipe(f).value, target)
  {
  }

  lemma TargetOnly(rules: Rules, f: Files, f': Files, target: Name)
    requires f' == f || (target in rules && rules[target].recipe(f) == Some(f'))
    ensures Tidy(rules) ==> OnlyTarget(f, f', target)
  {
    if target in rules { TidyIf(rules, f, target); }
    hide Tidy;
  }

  lemma ReplayGrows(rules: Rules, f0: Files, s: State, target: Name)
    requires Replay(rules, f0, s.log) == Some(s.files)
    ensures HasRecipe(rules, target) ==>
      Replay(rules, f0, Started(rules, s, target).log) == rules[target].recipe(s.files)
  {
    var log := Started(rules, s, target).log;
    assert log[..|log| - 1] == s.log;
  }

  /** The target is entered into the cache: left alone, or rebuilt with or without a recipe. */
  lemma Finished(rules: Rules, phony: set<Name>, f0: Files, s0: State, s: State, target: Name, needs: bool,
                 built: bool, log: seq<Ran>, f: Files)
    requires Entered(rules, phony, f0, s0, s, target)
    requires Checked(rules, f0, s, target, |Prereqs(rules, target)|, needs, target in phony)
    requires (needs || target in phony ==> built)
    requires (Acyclic(rules) && Tidy(rules) ==> Decided(rules, phony, f0, s, target, built))
    requires log == if built && HasRecipe(rules, target) then Started(rules, s, target).log else s.log
    requires Some(f) == if built && HasRecipe(rules, target) then rules[target].recipe(s.files) else Some(s.files)
    requires Acyclic(rules) && Tidy(rules) ==> Makeable(rules, phony, f0, target)
    ensures var s' := State(s0.stack, s.cache[target := built], f, log);
      Inv(rules, phony, f0, s') && Keeps(s0, s')
  {
    hide Acyclic, Tidy, Checked, Exact, NoneStale, Decided, OnlyTarget, RanExactly, Makeable, Replay;
    var s' := State(s0.stack, s.cache[target := built], f, log);
    CacheGrows(rules, phony, f0, s0, s, target, built);
    StartedOnce(rules, phony, f0, s0, s, target);
    RanGrows(rules, s, target, built, log, s0.stack, f);
    ReplayGrows(rules, f0, s, target);
    TargetOnly(rules, s.files, f, target);
    assert s0.log <= s.log <= log;
    if Acyclic(rules) {
      forall p | DependsOn(rules, target, p)
        ensures p in s.cache
        ensures (!built ==> !s.cache[p]) { AllChecked(rules, f0, s, target, needs, target in phony, p); }
      StaleGrows(rules, phony, s, target, built, log, s0.stack, f);
      assert Missing(rules, s, target) == {};
      if Tidy(rules) { ExactGrows(rules, phony, f0, s, target, built, log, s0.stack, f); }
    }
  }

  lemma StaleGrows(rules: Rules, phony: set<Name>, s: State, target: Name, built: bool, log: seq<Ran>,
                   stack: seq<Name>, f: Files)
    requires NoneStale(rules, s) && (target in s.cache ==> s.cache[target] && built)
    requires !built ==> forall p :: DependsOn(rules, target, p) ==> p in s.cache && !s.cache[p]
    ensures NoneStale(rules, State(stack, s.cache[target := built], f, log))
  {
    hide DependsOn;
  }

  // ----- build_target_internal -----

  /** The stack is a path without repetition that leads to the target. */
  ghost predicate OnWay(rules: Rules, u: set<Name>, stack: seq<Name>, target: Name) {
    && Closed(rules, u) && target in u
    && Distinct(stack) && (forall i :: 0 <= i < |stack| ==> stack[i] in u)
    && Path(rules, stack + [target])
  }

  lemma {:induction false} StackBound(s: seq<Name>, u: set<Name>)
    requires Distinct(s) && forall i :: 0 <= i < |s| ==> s[i] in u
    ensures |s| <= |u|
  {
    if s != [] {
      var n := |s| - 1;
      StackBound(s[..n], u - {s[n]});
    }
  }

  lemma WayDown(rules: Rules, u: set<Name>, stack: seq<Name>, target: Name, p: Name)
    requires OnWay(rules, u, stack, target) && target !in stack && DependsOn(rules, target, p)
    ensures OnWay(rules, u, stack + [target], p) && |stack| < |u|
  {
    var s := stack + [target];
    StackBound(s, u);
    forall i | 0 <= i < |s + [p]| - 1 ensures DependsOn(rules, (s + [p])[i], (s + [p])[i + 1]) {
      if i < |s| - 1 { assert DependsOn(rules, s[i], s[i + 1]); }
    }
  }

  lemma InvOnce(rules: Rules, phony: set<Name>, f0: Files, s: State)
    requires Inv(rules, phony, f0, s)
    ensures Once(s.log, phony)
  {
  }

  lemma Replayed(rules: Rules, phony: set<Name>, f0: Files, s: State)
    requires Inv(rules, phony, f0, s)
    ensures Replay(rules, f0, s.log) == Some(s.files)
  {
  }

  lemma EnteredOnce(rules: Rules, phony: set<Name>, f0: Files, s0: State, s: State, target: Name)
    requires Entered(rules, phony, f0, s0, s, target)
    ensures Once(s.log, phony)
  {
    hide Acyclic, Tidy;
  }

  lemma KeepsSame(s: State)
    ensures Keeps(s, s)
  {
  }

  lemma EnterTarget(rules: Rules, phony: set<Name>, f0: Files, s0: State, target: Name)
    requires Inv(rules, phony, f0, s0) && target !in s0.stack && (target in s0.cache ==> target in phony)
    ensures Entered(rules, phony, f0, s0, s0.(stack := s0.stack + [target]), target)
  {
    hide Acyclic, Tidy;
  }

  lemma NoneChecked(rules: Rules, f0: Files, s: State, target: Name, isPhony: bool)
    ensures Checked(rules, f0, s, target, 0, false, isPhony)
  {
  }

  /** One more prerequisite was built; time is that of the target at the start. */
  lemma CheckedNext(rules: Rules, phony: set<Name>, f0: Files, u: set<Name>, s: State, target: Name, k: nat,
                    needs: bool, needs': bool, time: nat)
    requires Checked(rules, f0, s, target, k, needs, target in phony) && k < |Prereqs(rules, target)|
    requires Inv(rules, phony, f0, s)
    requires Acyclic(rules) && Tidy(rules) && target !in phony ==> time == Mtime(f0, target)
    requires var p := Prereqs(rules, target)[k];
      && OnWay(rules, u, s.stack, p) && (p in s.cache || p in s.stack)
      && needs' == (needs || (target !in phony && ((p in s.cache && s.cache[p]) || Mtime(s.files, p) > time)))
    ensures Checked(rules, f0, s, target, k + 1, needs', target in phony)
  {
    var p := Prereqs(rules, target)[k];
    var isPhony := target in phony;
    if p in s.stack { StackCycle(rules, s.stack, p); }
    hide Acyclic, Tidy, OnWay, Once, RanExactly, Ordered, NoneStale;
    if Acyclic(rules) {
      forall j | 0 <= j < k ensures DoneAt(rules, f0, s, target, j, needs', isPhony) {
        assert DoneAt(rules, f0, s, target, j, needs, isPhony);
      }
      if Tidy(rules) {
        assert s.cache[p] || SameFile(f0, s.files, p);
        if needs' && !needs { assert Asks(rules, f0, s.cache, target, p); }
      }
    }
  }

  lemma NextPrereq(rules: Rules, phony: set<Name>, f0: Files, u: set<Name>, s0: State, s: State, target: Name, p: Name)
    requires OnWay(rules, u, s0.stack, target) && Entered(rules, phony, f0, s0, s, target)
    requires p in Prereqs(rules, target)
    requires s.stack == s0.stack + [target]
    ensures OnWay(rules, u, s.stack, p) && Inv(rules, phony, f0, s) && |s0.stack| < |u|
  {
    hide Inv, Keeps, OnWay;
    WayDown(rules, u, s0.stack, target, p);
  }

  lemma EnteredKept(rules: Rules, phony: set<Name>, f0: Files, s0: State, s: State, s': State, target: Name)
    requires Entered(rules, phony, f0, s0, s, target) && Inv(rules, phony, f0, s') && Keeps(s, s')
    ensures Entered(rules, phony, f0, s0, s', target)
  {
    hide Inv, Keeps;
    KeepsTrans(s0.(stack := s0.stack + [target]), s, s');
  }

  /** A target that is not done has the file it had at the start. */
  lemma StartFile(rules: Rules, phony: set<Name>, f0: Files, s: State, target: Name)
    requires Inv(rules, phony, f0, s) && target !in s.cache
    ensures Acyclic(rules) && Tidy(rules) ==> SameFile(f0, s.files, target)
  {
    hide Acyclic, Tidy;
  }

  /** The decision, from the answers of the prerequisites. */
  lemma Decide(rules: Rules, phony: set<Name>, f0: Files, s: State, target: Name,
               needs: bool, exists_: bool, built: bool)
    requires Acyclic(rules) && Tidy(rules) ==>
      Checked(rules, f0, s, target, |Prereqs(rules, target)|, needs, target in phony)
    requires target !in phony && Acyclic(rules) && Tidy(rules) ==> exists_ == (target in f0)
    requires built == (|| needs || target in phony || !exists_
                       || (|Prereqs(rules, target)| == 0 && target in rules && rules[target].cmds))
    ensures Acyclic(rules) && Tidy(rules) ==> Decided(rules, phony, f0, s, target, built)
  {
    if Acyclic(rules) && Tidy(rules) && target !in phony {
      if p :| Asks(rules, f0, s.cache, target, p) {
        AllChecked(rules, f0, s, target, needs, target in phony, p);
      }
    }
    hide Acyclic, Tidy, Asks;
  }

  // ----- Failure -----

  /** Why a run stops at n: there is no rule and no file, or its recipe fails on the files. */
  ghost predicate Blocked(rules: Rules, phony: set<Name>, f0: Files, f: Files, n: Name) {
    || (n !in f && n !in rules && n !in phony && (Acyclic(rules) && Tidy(rules) ==> !Makeable(rules, phony, f0, n)))
    || (HasRecipe(rules, n) && rules[n].recipe(f).None?)
  }

  /** A path from n down to where the run stops. */
  ghost predicate Stops(rules: Rules, phony: set<Name>, f0: Files, f: Files, q: seq<Name>, n: Name) {
    q != [] && q[0] == n && Path(rules, q) && Blocked(rules, phony, f0, f, q[|q| - 1])
  }

  ghost predicate Stuck(rules: Rules, phony: set<Name>, f0: Files, f: Files, n: Name) {
    exists q :: Stops(rules, phony, f0, f, q, n)
  }

  lemma StuckHere(rules: Rules, phony: set<Name>, f0: Files, f: Files, n: Name)
    requires Blocked(rules, phony, f0, f, n)
    ensures Stuck(rules, phony, f0, f, n)
  {
    hide Blocked;
    assert Stops(rules, phony, f0, f, [n], n);
  }

  lemma StuckAbove(rules: Rules, phony: set<Name>, f0: Files, f: Files, n: Name, p: Name)
    requires Stuck(rules, phony, f0, f, p) && DependsOn(rules, n, p)
    ensures Stuck(rules, phony, f0, f, n)
  {
    hide Blocked, Path;
    var q :| Stops(rules, phony, f0, f, q, p);
    PathFront(rules, n, q);
    assert Stops(rules, phony, f0, f, [n] + q, n);
  }

  class Maker {
    const rules: Rules
    const phony: set<Name>
    var stack: seq<Name>
    var cache: map<Name, bool>
    var files: Files
    ghost const f0: Files
    ghost var log: seq<Ran>

    constructor (rules: Rules, phony: set<Name>, files: Files)
      ensures this.rules == rules && this.phony == phony && f0 == files
      ensures Now() == State([], map[], files, []) && Inv(rules, phony, f0, Now())
    {
      this.rules, this.phony := rules, phony;
      this.stack, this.cache, this.files := [], map[], files;
      this.f0, this.log := files, [];
    }

    ghost function Now(): State
      reads this
    {
      State(stack, cache, files, log)
    }

    /** True for success. The recursion ends on every graph, because each call puts another
        name of the finite set u on the stack. */
    method Build(target: Name, ghost u: set<Name>) returns (ok: bool)
      requires OnWay(rules, u, stack, target) && Inv(rules, phony, f0, Now())
      modifies this
      ensures ok ==> Inv(rules, phony, f0, Now()) && Keeps(old(Now()), Now()) && (target in cache || target in stack)
      ensures !ok ==> Stuck(rules, phony, f0, files, target)
      ensures stack == old(stack) && Once(log, phony)
      decreases |u| - |stack|, 1
    {
      hide Inv, Keeps, OnWay, Once, Checked, Decided, Entered, Stuck, Acyclic, Tidy;
      ghost var s0 := Now();
      InvOnce(rules, phony, f0, s0);
      KeepsSame(s0);
      var isPhony := target in phony;
      var exists_ := target in files;
      var time := Mtime(files, target);
      if target in stack {
        return true;
      }
      if target in cache && !isPhony {
        return true;
      }
      if !isPhony { StartFile(rules, phony, f0, s0, target); }
      if target !in rules && !exists_ && !isPhony {
        StuckHere(rules, phony, f0, files, target);
        return false;
      }
      stack := stack + [target];
      EnterTarget(rules, phony, f0, s0, target);
      var needs;
      ok, needs := BuildPrereqs(target, isPhony, time, u, s0);
      stack := stack[..|stack| - 1];
      assert stack == s0.stack;
      if !ok {
        return false;
      }
      ghost var s := Now().(stack := s0.stack + [target]);
      ghost var asked := needs;
      if isPhony || !exists_ || (|Prereqs(rules, target)| == 0 && target in rules && rules[target].cmds) {
        needs := true;
      }
      Decide(rules, phony, f0, s, target, asked, exists_, needs);
      if !needs {
        Finished(rules, phony, f0, s0, s, target, asked, false, log, files);
        cache := cache[target := false];
        InvOnce(rules, phony, f0, Now());
        return true;
      }
      if target in rules && rules[target].cmds {
        StartedOnce(rules, phony, f0, s0, s, target);
        log := Started(rules, s, target).log;
        var r := rules[target].recipe(files);
        if r.None? {
          StuckHere(rules, phony, f0, files, target);
          return false;
        }
        files := r.value;
      }
      Finished(rules, phony, f0, s0, s, target, asked, true, log, files);
      cache := cache[target := true];
      InvOnce(rules, phony, f0, Now());
      ok := true;
    }

    /** The loop over the prerequisites, and whether one of them asks for a rebuild. */
    method BuildPrereqs(target: Name, isPhony: bool, time: nat, ghost u: set<Name>, ghost s0: State)
      returns (ok: bool, needs: bool)
      requires stack == s0.stack + [target] && OnWay(rules, u, s0.stack, target)
      requires Entered(rules, phony, f0, s0, Now(), target) && isPhony == (target in phony)
      requires Acyclic(rules) && Tidy(rules) && !isPhony ==> time == Mtime(f0, target)
      modifies this
      ensures !ok ==> Stuck(rules, phony, f0, files, target)
      ensures stack == old(stack) && Once(log, phony)
      ensures ok ==> Entered(rules, phony, f0, s0, Now(), target)
      ensures ok ==> Checked(rules, f0, Now(), target, |Prereqs(rules, target)|, needs, isPhony)
      decreases |u| - |s0.stack|, 0
    {
      hide Inv, Keeps, OnWay, Once, Entered, Checked, Acyclic, Tidy, Stuck;
      NoneChecked(rules, f0, Now(), target, isPhony);
      EnteredOnce(rules, phony, f0, s0, Now(), target);
      ok, needs := true, false;
      var prereqs := Prereqs(rules, target);
      var k := 0;
      while k < |prereqs|
        invariant 0 <= k <= |prereqs| && stack == s0.stack + [target]
        invariant Entered(rules, phony, f0, s0, Now(), target) && Once(log, phony)
        invariant Checked(rules, f0, Now(), target, k, needs, isPhony)
      {
        var p := prereqs[k];
        ghost var s1 := Now();
        NextPrereq(rules, phony, f0, u, s0, s1, target, p);
        ok := Build(p, u);
        if !ok {
          StuckAbove(rules, phony, f0, files, target, p);
          return;
        }
        EnteredKept(rules, phony, f0, s0, s1, Now(), target);
        CheckedKept(rules, f0, s1, Now(), target, k, needs, isPhony);
        ghost var before := needs;
        if !isPhony {
          if p in cache && cache[p] {
            needs := true;
          }
          if Mtime(files, p) > time {
            needs := true;
          }
        }
        CheckedNext(rules, phony, f0, u, Now(), target, k, before, needs, time);
        k := k + 1;
      }
    }
  }

  /** All names that a walk from the goal can meet. */
  ghost function Universe(rules: Rules, goal: Name): set<Name> {
    {goal} + rules.Keys + set n, p | n in rules && p in rules[n].prereqs :: p
  }

  /** A reason that a target has by itself, by the files f0 at the start: it is phony or missing,
      has a recipe and no prerequisites, or is older than one of them. */
  ghost predicate OwnReason(rules: Rules, phony: set<Name>, f0: Files, n: Name) {
    || n in phony
    || n !in f0
    || (HasRecipe(rules, n) && rules[n].prereqs == [])
    || (exists p :: Older(rules, f0, n, p))
  }

  ghost predicate Older(rules: Rules, f0: Files, n: Name, p: Name) {
    DependsOn(rules, n, p) && Mtime(f0, p) > Mtime(f0, n)
  }

  /** A path from a target down to one that has a reason. */
  ghost predicate Leads(rules: Rules, phony: set<Name>, f0: Files, q: seq<Name>, n: Name) {
    q != [] && q[0] == n && Path(rules, q) && OwnReason(rules, phony, f0, q[|q| - 1])
  }

  ghost predicate Affected(rules: Rules, phony: set<Name>, f0: Files, n: Name) {
    exists q :: Leads(rules, phony, f0, q, n)
  }

  lemma {:induction false} LeadsRebuilt(rules: Rules, phony: set<Name>, f0: Files, s: State, n: Name, q: seq<Name>)
    requires Inv(rules, phony, f0, s) && Acyclic(rules) && Tidy(rules) && n in s.cache && Leads(rules, phony, f0, q, n)
    ensures s.cache[n]
    decreases |q|
  {
    hide Acyclic, Tidy, Mtime, RanExactly, Once;
    if n !in phony {
      if |q| == 1 {
        if p :| Older(rules, f0, n, p) { assert Asks(rules, f0, s.cache, n, p); }
      } else {
        assert DependsOn(rules, q[0], q[1]);
        assert Path(rules, q[1..]) by {
          forall i | 0 <= i < |q[1..]| - 1 ensures DependsOn(rules, q[1..][i], q[1..][i + 1]) {
            assert DependsOn(rules, q[i + 1], q[i + 2]);
          }
        }
        LeadsRebuilt(rules, phony, f0, s, q[1], q[1..]);
        assert Asks(rules, f0, s.cache, n, q[1]);
      }
    }
  }

  /** A rebuilt target leads to one with a reason: the search ends because a path without a cycle
      does not meet a name twice. */
  lemma {:induction false} RebuiltLeads(rules: Rules, phony: set<Name>, f0: Files, s: State, u: set<Name>,
                                        stack: seq<Name>, n: Name)
    returns (q: seq<Name>)
    requires Inv(rules, phony, f0, s) && Acyclic(rules) && Tidy(rules) && n in s.cache && s.cache[n]
    requires OnWay(rules, u, stack, n)
    ensures Leads(rules, phony, f0, q, n)
    decreases |u| - |stack|
  {
    if n in stack { StackCycle(rules, stack, n); }
    hide Acyclic, Tidy, Mtime, RanExactly, Once, OnWay;
    q := [n];
    if !OwnReason(rules, phony, f0, n) {
      assert Wanted(rules, f0, s.cache, n);
      var p :| Asks(rules, f0, s.cache, n, p);
      assert !Older(rules, f0, n, p);
      WayDown(rules, u, stack, n, p);
      var r := RebuiltLeads(rules, phony, f0, s, u, stack + [n], p);
      q := [n] + r;
      PathFront(rules, n, r);
    }
  }

  lemma PathFront(rules: Rules, n: Name, r: seq<Name>)
    requires r != [] && Path(rules, r) && DependsOn(rules, n, r[0])
    ensures Path(rules, [n] + r)
  {
    var q := [n] + r;
    hide DependsOn;
    forall i | 0 <= i < |q| - 1 ensures DependsOn(rules, q[i], q[i + 1]) {
      if i > 0 { assert DependsOn(rules, r[i - 1], r[i]); }
    }
  }

  /** A target is rebuilt if and only if it leads to a target with a reason of its own, by the
      rules and the files at the start alone. */
  lemma RebuiltExactly(rules: Rules, phony: set<Name>, f0: Files, s: State, n: Name)
    requires Inv(rules, phony, f0, s) && Acyclic(rules) && Tidy(rules) && n in s.cache
    ensures s.cache[n] <==> Affected(rules, phony, f0, n)
  {
    hide Inv, Acyclic, Tidy, Leads;
    if s.cache[n] {
      WayFrom(rules, n);
      var q := RebuiltLeads(rules, phony, f0, s, Universe(rules, n), [], n);
    }
    if q :| Leads(rules, phony, f0, q, n) { LeadsRebuilt(rules, phony, f0, s, n, q); }
  }

  lemma WayFrom(rules: Rules, n: Name)
    ensures OnWay(rules, Universe(rules, n), [], n)
  {
  }

  /** On an acyclic graph with recipes that keep to their targets: a target that was left alone
      exists, and it is at least as new as each of its prerequisites, which were left alone too. */
  lemma LeftAloneIsCurrent(rules: Rules, phony: set<Name>, f0: Files, s: State, n: Name)
    requires Inv(rules, phony, f0, s) && Acyclic(rules) && Tidy(rules) && n in s.cache && !s.cache[n]
    ensures Current(rules, s, n)
  {
    hide Acyclic, Tidy, RanExactly, Once;
    assert SameFile(f0, s.files, n);
    assert !Wanted(rules, f0, s.cache, n);
    forall p | DependsOn(rules, n, p) ensures p in s.cache && !s.cache[p] && Mtime(s.files, p) <= Mtime(s.files, n) {
      assert !Asks(rules, f0, s.cache, n, p);
      assert SameFile(f0, s.files, p);
    }
  }

  ghost predicate Current(rules: Rules, s: State, n: Name) {
    && n in s.files
    && forall p :: DependsOn(rules, n, p) ==> p in s.cache && !s.cache[p] && Mtime(s.files, p) <= Mtime(s.files, n)
  }

  /** What a successful run has done: it rebuilt exactly the affected targets, started exactly
      their recipes, none before its prerequisites were done, and what it left alone is current. */
  ghost predicate Right(rules: Rules, phony: set<Name>, f0: Files, s: State) {
    && (forall n :: n in s.cache ==> (s.cache[n] <==> Affected(rules, phony, f0, n)))
    && (forall n :: Logged(s.log, n) <==> n in s.cache && s.cache[n] && HasRecipe(rules, n))
    && (forall i :: 0 <= i < |s.log| ==> s.log[i].missing == {})
    && (forall n :: n in s.cache && !s.cache[n] ==> Current(rules, s, n))
  }

  lemma RunIsRight(rules: Rules, phony: set<Name>, f0: Files, s: State)
    requires Inv(rules, phony, f0, s) && Acyclic(rules) && Tidy(rules)
    ensures Right(rules, phony, f0, s)
  {
    hide Acyclic, Tidy, Affected, Current, Once, NoneStale, Exact, Logged, HasRecipe;
    forall n | n in s.cache ensures s.cache[n] <==> Affected(rules, phony, f0, n) {
      RebuiltExactly(rules, phony, f0, s, n);
    }
    forall n | n in s.cache && !s.cache[n] ensures Current(rules, s, n) {
      LeftAloneIsCurrent(rules, phony, f0, s, n);
    }
  }

  /** Everything that the goal needs can be made. */
  ghost predicate AllMakeable(rules: Rules, phony: set<Name>, f0: Files, goal: Name) {
    forall q :: q != [] && q[0] == goal && Path(rules, q) ==> Makeable(rules, phony, f0, q[|q| - 1])
  }

  ghost predicate NeverFails(rules: Rules) { forall n, f :: n in rules ==> rules[n].recipe(f).Some? }

  /** All that is needed for a target that is done, is done. */
  lemma {:induction false} DoneBelow(rules: Rules, phony: set<Name>, f0: Files, s: State, q: seq<Name>)
    requires Exact(rules, phony, f0, s) && q != [] && Path(rules, q) && q[0] in s.cache
    ensures q[|q| - 1] in s.cache && Makeable(rules, phony, f0, q[|q| - 1])
    decreases |q|
  {
    if |q| > 1 {
      assert DependsOn(rules, q[0], q[1]);
      var r := q[1..];
      assert Path(rules, r) by {
        forall i | 0 <= i < |r| - 1 ensures DependsOn(rules, r[i], r[i + 1]) {
          assert DependsOn(rules, q[i + 1], q[i + 2]);
        }
      }
      DoneBelow(rules, phony, f0, s, r);
    }
  }

  lemma SuccessMakes(rules: Rules, phony: set<Name>, f0: Files, s: State, goal: Name)
    requires Inv(rules, phony, f0, s) && Acyclic(rules) && Tidy(rules) && goal in s.cache
    ensures AllMakeable(rules, phony, f0, goal)
  {
    hide Acyclic, Tidy, Path, Makeable, Exact;
    forall q | q != [] && q[0] == goal && Path(rules, q) ensures Makeable(rules, phony, f0, q[|q| - 1]) {
      DoneBelow(rules, phony, f0, s, q);
    }
  }

  lemma FailureStops(rules: Rules, phony: set<Name>, f0: Files, f: Files, goal: Name)
    requires Stuck(rules, phony, f0, f, goal) && Acyclic(rules) && Tidy(rules) && NeverFails(rules)
    ensures !AllMakeable(rules, phony, f0, goal)
  {
    hide Acyclic, Tidy, Path, Makeable;
    var q :| Stops(rules, phony, f0, f, q, goal);
  }

  /** One goal from a fresh start, on any finite graph. */
  method MakeGoal(rules: Rules, phony: set<Name>, files: Files, goal: Name) returns (ok: bool, m: Maker)
    ensures m.rules == rules && m.phony == phony && m.f0 == files && m.stack == []
    ensures Once(m.log, phony)
    ensures ok ==> goal in m.cache && Inv(rules, phony, files, m.Now())
    ensures ok && Acyclic(rules) && Tidy(rules) ==> Right(rules, phony, files, m.Now())
    ensures ok ==> Replay(rules, files, m.log) == Some(m.files)
    ensures !ok ==> Stuck(rules, phony, files, m.files, goal)
    ensures Acyclic(rules) && Tidy(rules) ==>
      && (ok ==> AllMakeable(rules, phony, files, goal))
      && (NeverFails(rules) ==> (ok <==> AllMakeable(rules, phony, files, goal)))
  {
    m := new Maker(rules, phony, files);
    hide Inv, Keeps, Right, Acyclic, Tidy, Stuck, AllMakeable, NeverFails, Replay;
    ok := m.Build(goal, Universe(rules, goal));
    if ok {
      Replayed(rules, phony, files, m.Now());
    }
    if Acyclic(rules) && Tidy(rules) {
      if ok {
        RunIsRight(rules, phony, files, m.Now());
        SuccessMakes(rules, phony, files, m.Now(), goal);
      } else if NeverFails(rules) {
        FailureStops(rules, phony, files, m.files, goal);
      }
    }
  }

  // ----- Pattern rules -----

  /** The position of the first percent sign, or the length. */
  function Percent(s: string): (i: nat)
    ensures i <= |s| && (i < |s| ==> s[i] == '%') && '%' !in s[..i]
  {
    if s == [] || s[0] == '%' then 0 else
      assert s[..1 + Percent(s[1..])] == [s[0]] + s[1..][..Percent(s[1..])];
      1 + Percent(s[1..])
  }

  /** match_pattern. */
  function MatchPattern(pattern: string, s: string): Option<string> {
    var i := Percent(pattern);
    if i == |pattern| then None
    else
      var suffix := pattern[i + 1..];
      if |s| < i + |suffix| || s[..i] != pattern[..i] || s[|s| - |suffix|..] != suffix then None
      else Some(s[i..|s| - |suffix|])
  }

  /** subst_stem. */
  function SubstStem(pattern: string, stem: string): string {
    var i := Percent(pattern);
    if i == |pattern| then pattern else pattern[..i] + stem + pattern[i + 1..]
  }

  /** A name matches with a stem if and only if putting the stem into the pattern gives the name. */
  lemma MatchExactly(pattern: string, s: string, stem: string)
    requires '%' in pattern
    ensures MatchPattern(pattern, s) == Some(stem) <==> SubstStem(pattern, stem) == s
  {
    var i := Percent(pattern);
    assert i < |pattern| by { assert pattern[..|pattern|] == pattern; }
    var suffix := pattern[i + 1..];
    if MatchPattern(pattern, s) == Some(stem) {
      assert s == s[..i] + s[i..|s| - |suffix|] + s[|s| - |suffix|..];
    }
    if SubstStem(pattern, stem) == s {
      assert s[..i] == pattern[..i] && s[|s| - |suffix|..] == suffix && s[i..|s| - |suffix|] == stem;
    }
  }
}
