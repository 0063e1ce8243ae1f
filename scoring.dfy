/**
 * The quality heuristic of the dataset store: an additive score over the
 * roles and content lengths of an example's messages.
 */
module Scoring {

  import opened Types

  /** Some message has the given role. */
  predicate HasRole(ms: seq<Message>, role: Role)
  {
    exists i | 0 <= i < |ms| :: ms[i].role == role
  }

  /** Some message has the given role and content longer than n characters. */
  predicate HasLongerOfRole(ms: seq<Message>, role: Role, n: int)
  {
    exists i | 0 <= i < |ms| :: ms[i].role == role && |ms[i].content| > n
  }

  /** Some message, whatever its role, has content longer than n characters. */
  predicate AnyLongerThan(ms: seq<Message>, n: int)
  {
    exists i | 0 <= i < |ms| :: |ms[i].content| > n
  }

  /** `messages.filter((m) => m.role === role)`: the messages of one role, in order. */
  function OfRole(ms: seq<Message>, role: Role): (r: seq<Message>)
    ensures forall m :: m in r <==> m in ms && m.role == role
    ensures |r| <= |ms|
  {
    if |ms| == 0 then []
    else if ms[0].role == role then [ms[0]] + OfRole(ms[1..], role)
    else OfRole(ms[1..], role)
  }

  /** +20 for a system prompt longer than 10 characters. */
  function SystemPoints(ms: seq<Message>): int
  {
    if HasLongerOfRole(ms, System, 10) then 20 else 0
  }

  /** +20 for any user message, +10 more when one is longer than 20 characters. */
  function UserPoints(ms: seq<Message>): int
  {
    if !HasRole(ms, User) then 0
    else 20 + (if HasLongerOfRole(ms, User, 20) then 10 else 0)
  }

  /**
   * +20 for any assistant message, +15 when one is longer than 50 characters and,
   * independently, +15 when one is longer than 200 characters.
   */
  function AssistantPoints(ms: seq<Message>): int
  {
    if !HasRole(ms, Assistant) then 0
    else 20 + (if HasLongerOfRole(ms, Assistant, 50) then 15 else 0)
            + (if HasLongerOfRole(ms, Assistant, 200) then 15 else 0)
  }

  /** The score of a message list: the sum of the three role parts. */
  function Score(ms: seq<Message>): (r: int)
    ensures 0 <= r <= 100
    ensures |ms| == 0 ==> r == 0
  {
    SystemPoints(ms) + UserPoints(ms) + AssistantPoints(ms)
  }

  function Min(a: int, b: int): int { if a <= b then a else b }

  /**
   * `calculateScore`: adds the parts one at a time, filtering by role as the
   * source does, and caps the total at 100 (a cap that never binds, since the
   * parts add up to at most 100).
   */
  method CalculateScore(messages: seq<Message>) returns (score: int)
    ensures score == Score(messages)
    ensures 0 <= score <= 100
    ensures |messages| == 0 ==> score == 0
  {
    score := 0;

    if HasLongerOfRole(messages, System, 10) {
      score := score + 20;
    }

    var userMessages := OfRole(messages, User);
    if |userMessages| > 0 {
      score := score + 20;
      if AnyLongerThan(userMessages, 20) {
        score := score + 10;
      }
    }

    var assistantMessages := OfRole(messages, Assistant);
    if |assistantMessages| > 0 {
      score := score + 20;
      if AnyLongerThan(assistantMessages, 50) {
        score := score + 15;
      }
      if AnyLongerThan(assistantMessages, 200) {
        score := score + 15;
      }
    }

    FilteredAgree(messages, User, 20);
    FilteredAgree(messages, Assistant, 50);
    FilteredAgree(messages, Assistant, 200);
    score := Min(100, score);
  }

  /** Testing the filtered list is the same as testing the role on the whole list. */
  lemma FilteredAgree(ms: seq<Message>, role: Role, n: int)
    ensures |OfRole(ms, role)| > 0 <==> HasRole(ms, role)
    ensures AnyLongerThan(OfRole(ms, role), n) <==> HasLongerOfRole(ms, role, n)
  {
    var f := OfRole(ms, role);
    if HasRole(ms, role) {
      var i :| 0 <= i < |ms| && ms[i].role == role;
      assert ms[i] in f;
    }
    if HasLongerOfRole(ms, role, n) {
      var i :| 0 <= i < |ms| && ms[i].role == role && |ms[i].content| > n;
      assert ms[i] in f;
    }
    if AnyLongerThan(f, n) {
      var j :| 0 <= j < |f| && |f[j].content| > n;
      assert f[j] in ms;
    }
  }

  /**
   * `ms'` covers `ms`: every message of `ms` has a counterpart in `ms'` of the same
   * role whose content is at least as long.
   */
  ghost predicate Covers(ms': seq<Message>, ms: seq<Message>)
  {
    forall i | 0 <= i < |ms| :: Dominated(ms', ms[i])
  }

  /** Some message of `ms'` has the role of `m` and content at least as long. */
  ghost predicate Dominated(ms': seq<Message>, m: Message)
  {
    exists j | 0 <= j < |ms'| :: ms'[j].role == m.role && |ms'[j].content| >= |m.content|
  }

  /** The score is monotone: a covering message list never scores lower. */
  lemma ScoreMonotone(ms: seq<Message>, ms': seq<Message>)
    requires Covers(ms', ms)
    ensures Score(ms) <= Score(ms')
  {
    forall role: Role, n: int | HasLongerOfRole(ms, role, n)
      ensures HasLongerOfRole(ms', role, n)
    {
      var i :| 0 <= i < |ms| && ms[i].role == role && |ms[i].content| > n;
      assert Dominated(ms', ms[i]);
    }
    forall role: Role | HasRole(ms, role) ensures HasRole(ms', role) {
      var i :| 0 <= i < |ms| && ms[i].role == role;
      assert Dominated(ms', ms[i]);
    }
  }

  /** A list that is position by position at least as long covers the other. */
  lemma CoversPointwise(ms': seq<Message>, ms: seq<Message>)
    requires |ms| <= |ms'|
    requires forall i | 0 <= i < |ms| :: ms'[i].role == ms[i].role && |ms'[i].content| >= |ms[i].content|
    ensures Covers(ms', ms)
  {
    forall i | 0 <= i < |ms| ensures Dominated(ms', ms[i]) {
      assert ms'[i].role == ms[i].role && |ms'[i].content| >= |ms[i].content|;
    }
  }

  /** Appending a message never lowers the score. */
  lemma ScoreAppend(ms: seq<Message>, m: Message)
    ensures Score(ms) <= Score(ms + [m])
  {
    CoversPointwise(ms + [m], ms);
    ScoreMonotone(ms, ms + [m]);
  }

  /** Making one message's content longer never lowers the score. */
  lemma ScoreLengthen(ms: seq<Message>, k: nat, content: string)
    requires k < |ms|
    requires |content| >= |ms[k].content|
    ensures Score(ms) <= Score(ms[k := ms[k].(content := content)])
  {
    CoversPointwise(ms[k := ms[k].(content := content)], ms);
    ScoreMonotone(ms, ms[k := ms[k].(content := content)]);
  }

  /** A system prompt, a 22-character question and a 38-character answer score 70. */
  lemma ScoreExample()
    ensures Score([
      Message("m1", System, "You are helpful"),
      Message("m2", User, "Hi there, how are you?"),
      Message("m3", Assistant, "I am doing well, thank you for asking!")]) == 70
  {
    var ms := [
      Message("m1", System, "You are helpful"),
      Message("m2", User, "Hi there, how are you?"),
      Message("m3", Assistant, "I am doing well, thank you for asking!")];
    assert ms[0].role == System && |ms[0].content| > 10;
    assert ms[1].role == User && |ms[1].content| > 20;
    assert ms[2].role == Assistant && |ms[2].content| == 38;
  }
}
