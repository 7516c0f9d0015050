/**
 * The per-user, per-challenge progress record and its status/counter state
 * machine. Timestamps are integers supplied by the caller (the wall clock is
 * a parameter); `time_spent` is in minutes and kept exact as a `real`.
 */
module ProgressModel {
  import opened Wrappers

  const NotStarted := "not_started"
  const InProgress := "in_progress"
  const Completed := "completed"

  /** The columns of the record that its methods read or write. */
  datatype Progress = Progress(
    status: string,
    startedAt: Option<int>,
    completedAt: Option<int>,
    lastAccessed: int,
    attemptsCount: int,
    hintsUsed: int,
    timeSpent: real,
    isBookmarked: bool,
    firstAttemptSuccess: bool,
    speedBonusEarned: bool)

  /** Python truthiness of an optional float such as `completion_time`. */
  predicate TruthyReal(x: Option<real>)
  {
    x.Some? && x.value != 0.0
  }

  /** Python truthiness of an optional integer such as `time_limit`. */
  predicate TruthyInt(x: Option<int>)
  {
    x.Some? && x.value != 0
  }

  /** The column defaults of a fresh record. */
  function Fresh(now: int): (p: Progress)
    ensures p.status == NotStarted && p.attemptsCount == 0 && p.hintsUsed == 0 && p.timeSpent == 0.0
    ensures !p.isBookmarked && !p.firstAttemptSuccess && !p.speedBonusEarned
    ensures p.startedAt.None? && p.completedAt.None?
  {
    Progress(NotStarted, None, None, now, 0, 0, 0.0, false, false, false)
  }

  /** `start_challenge`. */
  function Start(p: Progress, now: int): (r: Progress)
    ensures p.status == NotStarted ==> r.status == InProgress && r.startedAt == Some(now) && r.lastAccessed == now
    ensures p.status == NotStarted ==>
      r.(status := p.status, startedAt := p.startedAt, lastAccessed := p.lastAccessed) == p
    ensures p.status != NotStarted ==> r == p
  {
    if p.status == NotStarted then p.(status := InProgress, startedAt := Some(now), lastAccessed := now) else p
  }

  /** Whether `complete_challenge` awards the speed bonus. */
  predicate SpeedBonus(completionTime: Option<real>, timeLimit: Option<int>)
  {
    TruthyReal(completionTime) && TruthyInt(timeLimit)
    && completionTime.value <= timeLimit.value as real * 0.5
  }

  /**
   * `complete_challenge`. `timeLimit` is the `time_limit` of the challenge
   * the record belongs to, `None` when the challenge is gone or has no limit.
   */
  function Complete(p: Progress, firstAttempt: bool, completionTime: Option<real>, timeLimit: Option<int>, now: int): (r: Progress)
    ensures r.status == Completed && r.completedAt == Some(now) && r.lastAccessed == now
    ensures r.firstAttemptSuccess <==> firstAttempt && p.attemptsCount == 1
    ensures r.timeSpent == if TruthyReal(completionTime) then completionTime.value else p.timeSpent
    ensures r.speedBonusEarned <==> p.speedBonusEarned || SpeedBonus(completionTime, timeLimit)
    ensures r.attemptsCount == p.attemptsCount && r.hintsUsed == p.hintsUsed
    ensures r.startedAt == p.startedAt && r.isBookmarked == p.isBookmarked
  {
    var q := p.(status := Completed, completedAt := Some(now), lastAccessed := now,
                firstAttemptSuccess := firstAttempt && p.attemptsCount == 1);
    if TruthyReal(completionTime) then
      q.(timeSpent := completionTime.value,
         speedBonusEarned := if SpeedBonus(completionTime, timeLimit) then true else q.speedBonusEarned)
    else q
  }

  /** `add_attempt`. */
  function WithAttempt(p: Progress, now: int): (r: Progress)
    ensures r.attemptsCount == p.attemptsCount + 1 && r.lastAccessed == now
    ensures r.(attemptsCount := p.attemptsCount, lastAccessed := p.lastAccessed) == p
  {
    p.(attemptsCount := p.attemptsCount + 1, lastAccessed := now)
  }

  /** `use_hint`. */
  function WithHint(p: Progress, now: int): (r: Progress)
    ensures r.hintsUsed == p.hintsUsed + 1 && r.lastAccessed == now
    ensures r.(hintsUsed := p.hintsUsed, lastAccessed := p.lastAccessed) == p
  {
    p.(hintsUsed := p.hintsUsed + 1, lastAccessed := now)
  }

  /** `update_time_spent`. */
  function WithTime(p: Progress, additional: real, now: int): (r: Progress)
    ensures r.timeSpent == p.timeSpent + additional && r.lastAccessed == now
    ensures r.(timeSpent := p.timeSpent, lastAccessed := p.lastAccessed) == p
  {
    p.(timeSpent := p.timeSpent + additional, lastAccessed := now)
  }

  /** The counters and the status are ones the methods can produce. */
  predicate Valid(p: Progress)
  {
    p.attemptsCount >= 0 && p.hintsUsed >= 0 && p.timeSpent >= 0.0
    && (p.status == NotStarted || p.status == InProgress || p.status == Completed)
  }

  lemma FreshValid(now: int)
    ensures Valid(Fresh(now))
  {
  }

  /** Every transition keeps the record valid (time only grows by non-negative amounts). */
  lemma TransitionsPreserveValid(p: Progress, now: int, firstAttempt: bool, completionTime: Option<real>,
                                 timeLimit: Option<int>, additional: real)
    requires Valid(p)
    ensures Valid(Start(p, now)) && Valid(WithAttempt(p, now)) && Valid(WithHint(p, now))
    ensures completionTime.None? || completionTime.value >= 0.0 ==>
      Valid(Complete(p, firstAttempt, completionTime, timeLimit, now))
    ensures additional >= 0.0 ==> Valid(WithTime(p, additional, now))
  {
  }

  /** Starting twice is starting once: a started record is never restarted. */
  lemma StartIdempotent(p: Progress, now: int, later: int)
    ensures Start(Start(p, now), later) == Start(p, now)
  {
  }

  /** Once earned, the speed bonus stays earned, and completed stays completed under start. */
  lemma CompletionIsSticky(p: Progress, firstAttempt: bool, completionTime: Option<real>, timeLimit: Option<int>,
                           now: int, later: int)
    ensures p.speedBonusEarned ==> Complete(p, firstAttempt, completionTime, timeLimit, now).speedBonusEarned
    ensures Start(Complete(p, firstAttempt, completionTime, timeLimit, now), later) ==
      Complete(p, firstAttempt, completionTime, timeLimit, now)
  {
  }

  /** An attempt and a hint touch disjoint counters: their order does not matter. */
  lemma AttemptHintCommute(p: Progress, now: int)
    ensures WithAttempt(WithHint(p, now), now) == WithHint(WithAttempt(p, now), now)
  {
  }

  /** `k` attempts in a row. */
  function Attempts(p: Progress, now: int, k: nat): Progress
  {
    if k == 0 then p else WithAttempt(Attempts(p, now, k - 1), now)
  }

  /** `k` calls of `add_attempt` raise the attempt counter by exactly `k` and leave the hints alone. */
  lemma {:induction false} AttemptsCount(p: Progress, now: int, k: nat)
    ensures Attempts(p, now, k).attemptsCount == p.attemptsCount + k
    ensures Attempts(p, now, k).hintsUsed == p.hintsUsed
    ensures Attempts(p, now, k).status == p.status && Attempts(p, now, k).timeSpent == p.timeSpent
  {
    if k > 0 {
      AttemptsCount(p, now, k - 1);
    }
  }

  /** The record as a mutable row; each method updates it in place. */
  class UserProgress {
    const userId: int
    const challengeId: int
    var status: string
    var startedAt: Option<int>
    var completedAt: Option<int>
    var lastAccessed: int
    var attemptsCount: int
    var hintsUsed: int
    var timeSpent: real
    var isBookmarked: bool
    var firstAttemptSuccess: bool
    var speedBonusEarned: bool

    function State(): Progress
      reads this
    {
      Progress(status, startedAt, completedAt, lastAccessed, attemptsCount, hintsUsed, timeSpent,
               isBookmarked, firstAttemptSuccess, speedBonusEarned)
    }

    /** A record created with only the keys and the column defaults (`UserProgress(user_id=..., challenge_id=...)`). */
    constructor (userId: int, challengeId: int, now: int)
      ensures this.userId == userId && this.challengeId == challengeId
      ensures State() == Fresh(now)
    {
      this.userId, this.challengeId := userId, challengeId;
      status, startedAt, completedAt, lastAccessed := NotStarted, None, None, now;
      attemptsCount, hintsUsed, timeSpent := 0, 0, 0.0;
      isBookmarked, firstAttemptSuccess, speedBonusEarned := false, false, false;
    }

    /** The record the start and submit routes create: `status='in_progress'`, `started_at=now`. */
    constructor Started(userId: int, challengeId: int, now: int)
      ensures this.userId == userId && this.challengeId == challengeId
      ensures State() == Fresh(now).(status := InProgress, startedAt := Some(now))
    {
      this.userId, this.challengeId := userId, challengeId;
      status, startedAt, completedAt, lastAccessed := InProgress, Some(now), None, now;
      attemptsCount, hintsUsed, timeSpent := 0, 0, 0.0;
      isBookmarked, firstAttemptSuccess, speedBonusEarned := false, false, false;
    }

    method StartChallenge(now: int)
      modifies this
      ensures State() == Start(old(State()), now)
    {
      if status == NotStarted {
        status := InProgress;
        startedAt := Some(now);
        lastAccessed := now;
      }
    }

    method CompleteChallenge(firstAttempt: bool, completionTime: Option<real>, timeLimit: Option<int>, now: int)
      modifies this
      ensures State() == Complete(old(State()), firstAttempt, completionTime, timeLimit, now)
    {
      status := Completed;
      completedAt := Some(now);
      lastAccessed := now;
      firstAttemptSuccess := firstAttempt && attemptsCount == 1;
      if TruthyReal(completionTime) {
        timeSpent := completionTime.value;
        if TruthyInt(timeLimit) && completionTime.value <= timeLimit.value as real * 0.5 {
          speedBonusEarned := true;
        }
      }
    }

    method AddAttempt(now: int)
      modifies this
      ensures State() == WithAttempt(old(State()), now)
    {
      attemptsCount := attemptsCount + 1;
      lastAccessed := now;
    }

    method UseHint(now: int)
      modifies this
      ensures State() == WithHint(old(State()), now)
    {
      hintsUsed := hintsUsed + 1;
      lastAccessed := now;
    }

    method UpdateTimeSpent(additional: real, now: int)
      modifies this
      ensures State() == WithTime(old(State()), additional, now)
    {
      timeSpent := timeSpent + additional;
      lastAccessed := now;
    }
  }
}
