/** `handleExit`: the process exit code of `theme check`, from the offenses
    found and the configured fail level. The exit itself is the returned code. */
module HandleExit {
  import opened Wrappers
  import opened Offenses

  /** The most severe severity among the offenses, none for no offenses. */
  function MostSevere(offenses: seq<Offense>): (r: Option<Severity>)
    ensures r.None? <==> offenses == []
    ensures r.Some? ==> exists i :: 0 <= i < |offenses| && offenses[i].severity == r.value
    ensures r.Some? ==> forall i :: 0 <= i < |offenses| ==> offenses[i].severity.Weight() <= r.value.Weight()
  {
    if offenses == [] then None
    else
      var head := offenses[0].severity;
      match MostSevere(offenses[1..])
      case None => Some(head)
      case Some(m) => Some(if head.Weight() >= m.Weight() then head else m)
  }

  /** Exit code 0 under `crash`; otherwise 1 exactly when the most severe offense
      reaches the fail level, 0 when it does not or there are no offenses. */
  function ExitCode(offenses: seq<Offense>, failLevel: FailLevel): (code: int)
    ensures code == 0 || code == 1
    ensures failLevel.Crash? ==> code == 0
  {
    if failLevel.Crash? then 0
    else match MostSevere(offenses)
      case None => 0
      case Some(m) => if m.Weight() >= failLevel.Weight() then 1 else 0
  }

  /** Some offense is at least as severe as the fail level. */
  predicate SomeReaches(offenses: seq<Offense>, failLevel: FailLevel)
    requires !failLevel.Crash?
  {
    exists i :: 0 <= i < |offenses| && offenses[i].severity.Weight() >= failLevel.Weight()
  }

  /** The run fails exactly when the level is not `crash` and some offense is at
      least as severe as it (equality fails the run too). */
  lemma ExitCodeFailsIff(offenses: seq<Offense>, failLevel: FailLevel)
    ensures ExitCode(offenses, failLevel) == 1 <==> !failLevel.Crash? && SomeReaches(offenses, failLevel)
  {
    if !failLevel.Crash? && SomeReaches(offenses, failLevel) {
      var i :| 0 <= i < |offenses| && offenses[i].severity.Weight() >= failLevel.Weight();
      assert MostSevere(offenses).Some?;
    }
  }

  /** The code depends only on which offenses there are, not on their order:
      handing over the grouped and sorted offenses gives the same code. */
  lemma ExitCodeIgnoresOrder(a: seq<Offense>, b: seq<Offense>, failLevel: FailLevel)
    requires multiset(a) == multiset(b)
    ensures ExitCode(a, failLevel) == ExitCode(b, failLevel)
  {
    ExitCodeFailsIff(a, failLevel);
    ExitCodeFailsIff(b, failLevel);
    if !failLevel.Crash? {
      if SomeReaches(a, failLevel) {
        var i :| 0 <= i < |a| && a[i].severity.Weight() >= failLevel.Weight();
        assert a[i] in multiset(b);
        var j :| 0 <= j < |b| && b[j] == a[i];
      }
      if SomeReaches(b, failLevel) {
        var i :| 0 <= i < |b| && b[i].severity.Weight() >= failLevel.Weight();
        assert b[i] in multiset(a);
        var j :| 0 <= j < |a| && a[j] == b[i];
      }
    }
  }

  /** A stricter fail level never turns a failing run into a passing one. */
  lemma ExitCodeMonotone(offenses: seq<Offense>, strict: FailLevel, lax: FailLevel)
    requires !strict.Crash? && !lax.Crash? && strict.Weight() <= lax.Weight()
    ensures ExitCode(offenses, lax) <= ExitCode(offenses, strict)
  {
  }

  /** The four exits the test suite pins. */
  lemma ExitCodeExamples(e: Offense, i: Offense)
    requires e.severity == ERROR && i.severity == INFO
    ensures ExitCode([], Crash) == 0
    ensures ExitCode([e], Suggestion) == 1
    ensures ExitCode([e], Error) == 1
    ensures ExitCode([i], Warning) == 0
  {
  }
}
