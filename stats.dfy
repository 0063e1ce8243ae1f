/**
 * `getDatasetStats`: the number of examples, the average score rounded half up,
 * and a whitespace token count over every message's content.
 */
module Stats {

  import opened Types

  /** The three exact statistics of a dataset. */
  datatype DatasetStats = DatasetStats(totalExamples: nat, avgScore: int, totalTokens: nat)

  /** `examples.reduce((sum, e) => sum + e.score, 0)`, folded from the left. */
  function SumScores(examples: seq<TrainingExample>): int
  {
    if |examples| == 0 then 0
    else SumScores(examples[..|examples| - 1]) + examples[|examples| - 1].score
  }

  /** The running sum splits at any point: the reduce adds the scores of each part. */
  lemma {:induction false} SumScoresAppend(xs: seq<TrainingExample>, ys: seq<TrainingExample>)
    ensures SumScores(xs + ys) == SumScores(xs) + SumScores(ys)
  {
    if |ys| == 0 {
      assert xs + ys == xs;
    } else {
      var init := ys[..|ys| - 1];
      assert (xs + ys)[..|xs + ys| - 1] == xs + init;
      assert (xs + ys)[|xs + ys| - 1] == ys[|ys| - 1];
      SumScoresAppend(xs, init);
    }
  }

  /**
   * `Math.round(sum / n)`: the integer nearest to sum / n, halves rounded up.
   * The ensures pins it down: r - 1/2 <= sum / n < r + 1/2.
   */
  function RoundedQuotient(sum: int, n: int): (r: int)
    requires n > 0
    ensures 2 * n * r - n <= 2 * sum < 2 * n * r + n
  {
    (2 * sum + n) / (2 * n)
  }

  /** The average score: 0 for no examples, else the rounded mean. */
  function AvgScore(examples: seq<TrainingExample>): (r: int)
    ensures |examples| == 0 ==> r == 0
    ensures |examples| > 0 ==>
      2 * |examples| * r - |examples| <= 2 * SumScores(examples) < 2 * |examples| * r + |examples|
  {
    if |examples| > 0 then RoundedQuotient(SumScores(examples), |examples|) else 0
  }

  /** Scores within [lo, hi] sum to within [n * lo, n * hi]. */
  lemma {:induction false} SumScoresBounds(examples: seq<TrainingExample>, lo: int, hi: int)
    requires forall k | 0 <= k < |examples| :: lo <= examples[k].score <= hi
    ensures |examples| * lo <= SumScores(examples) <= |examples| * hi
  {
    if |examples| > 0 {
      var init := examples[..|examples| - 1];
      assert forall k | 0 <= k < |init| :: init[k] == examples[k];
      SumScoresBounds(init, lo, hi);
    }
  }

  /** Scores within [lo, hi] average to a value within [lo, hi]. */
  lemma AvgScoreBounds(examples: seq<TrainingExample>, lo: int, hi: int)
    requires forall k | 0 <= k < |examples| :: lo <= examples[k].score <= hi
    ensures |examples| > 0 ==> lo <= AvgScore(examples) <= hi
  {
    if |examples| > 0 {
      var n, r := |examples|, AvgScore(examples);
      SumScoresBounds(examples, lo, hi);
      if r < lo {
        ScaleLe(r + 1, lo, 2 * n);
        ScaleSucc(2 * n, r);
        ScaleTwice(n, lo);
      }
      if r > hi {
        ScaleLe(hi + 1, r, 2 * n);
        ScaleSucc(2 * n, hi);
        ScaleTwice(n, hi);
      }
    }
  }

  lemma ScaleLe(a: int, b: int, c: nat)
    requires a <= b
    ensures c * a <= c * b
  {
  }

  lemma ScaleSucc(c: int, a: int)
    ensures c * (a + 1) == c * a + c
  {
  }

  lemma ScaleTwice(c: int, a: int)
    ensures 2 * c * a == 2 * (c * a)
  {
  }

  /** When every score is the same, the average is that score. */
  lemma AvgScoreConstant(examples: seq<TrainingExample>, c: int)
    requires |examples| > 0
    requires forall k | 0 <= k < |examples| :: examples[k].score == c
    ensures AvgScore(examples) == c
  {
    AvgScoreBounds(examples, c, c);
  }

  /** Two scores averaging to exactly half an integer round up: 1 and 2 average to 2. */
  lemma AvgScoreHalfUp(e1: TrainingExample, e2: TrainingExample)
    requires e1.score == 1 && e2.score == 2
    ensures AvgScore([e1, e2]) == 2
  {
    assert [e1, e2][..1] == [e1];
    assert [e1][..0] == [];
    assert SumScores([e1]) == 1;
    assert SumScores([e1, e2]) == 3;
  }

  /**
   * The characters `\s` matches in a JavaScript regular expression: the ASCII
   * blanks, the Unicode space separators, the line and paragraph separators and
   * the byte order mark.
   */
  predicate IsSpace(c: char)
  {
    c == ' ' || c == '\t' || c == '\n' || c == '\r'
    || c as int == 0x0B || c as int == 0x0C || c as int == 0xA0 || c as int == 0x1680
    || (0x2000 <= c as int <= 0x200A)
    || c as int == 0x2028 || c as int == 0x2029 || c as int == 0x202F || c as int == 0x205F
    || c as int == 0x3000 || c as int == 0xFEFF
  }

  /** `s` without its leading run of whitespace. */
  function DropSpaces(s: string): (r: string)
    ensures |r| <= |s|
    ensures |r| > 0 ==> !IsSpace(r[0])
    ensures |s| > 0 && IsSpace(s[0]) ==> |r| < |s|
  {
    if |s| > 0 && IsSpace(s[0]) then DropSpaces(s[1..]) else s
  }

  /**
   * `s.split(/\s+/)`: the pieces between maximal runs of whitespace. A leading or
   * trailing run gives an empty first or last piece, and "" gives [""].
   */
  function Pieces(s: string): (ps: seq<string>)
    ensures |ps| >= 1
    ensures forall k | 0 <= k < |ps| :: forall j | 0 <= j < |ps[k]| :: !IsSpace(ps[k][j])
    decreases |s|
  {
    if |s| == 0 then [""]
    else if IsSpace(s[0]) then [""] + Pieces(DropSpaces(s))
    else
      var rest := Pieces(s[1..]);
      [[s[0]] + rest[0]] + rest[1..]
  }

  /**
   * The number of whitespace runs in `s`, read left to right, where `inRun` says
   * whether the character before `s` was whitespace.
   */
  function Runs(inRun: bool, s: string): nat
    decreases |s|
  {
    if |s| == 0 then 0
    else (if IsSpace(s[0]) && !inRun then 1 else 0) + Runs(IsSpace(s[0]), s[1..])
  }

  /** The characters of `s` that are not whitespace, in order. */
  function NonSpace(s: string): string
  {
    if |s| == 0 then "" else (if IsSpace(s[0]) then "" else [s[0]]) + NonSpace(s[1..])
  }

  /** The pieces laid end to end. */
  function Concat(ps: seq<string>): string
  {
    if |ps| == 0 then "" else ps[0] + Concat(ps[1..])
  }

  lemma {:induction false} RunsDropSpaces(s: string)
    ensures Runs(true, s) == Runs(false, DropSpaces(s))
    ensures NonSpace(s) == NonSpace(DropSpaces(s))
  {
    if |s| > 0 && IsSpace(s[0]) {
      RunsDropSpaces(s[1..]);
    }
  }

  /**
   * `split(/\s+/)` gives one piece more than there are whitespace runs, and the
   * pieces hold exactly the non-whitespace characters, in order.
   */
  lemma {:induction false} PiecesRuns(s: string)
    ensures |Pieces(s)| == 1 + Runs(false, s)
    ensures Concat(Pieces(s)) == NonSpace(s)
    decreases |s|
  {
    if |s| > 0 {
      if IsSpace(s[0]) {
        var d := DropSpaces(s);
        assert d == DropSpaces(s[1..]);
        RunsDropSpaces(s[1..]);
        PiecesRuns(d);
        assert ([""] + Pieces(d))[1..] == Pieces(d);
      } else {
        var rest := Pieces(s[1..]);
        PiecesRuns(s[1..]);
        var ps := [[s[0]] + rest[0]] + rest[1..];
        assert ps[1..] == rest[1..];
        assert Concat(rest) == rest[0] + Concat(rest[1..]);
      }
    }
  }

  /** `content.split(/\s+/).length`: one more than the number of whitespace runs. */
  function TokenCount(content: string): (r: nat)
    ensures r == 1 + Runs(false, content)
  {
    PiecesRuns(content);
    |Pieces(content)|
  }

  /** Empty content and content of blanks alone still count: "" is one token, " " is two. */
  lemma TokenCountBlank()
    ensures TokenCount("") == 1
    ensures TokenCount(" ") == 2
    ensures TokenCount("a b") == 2
  {
    PiecesRuns(" ");
    PiecesRuns("a b");
    assert " "[1..] == "";
    assert "a b"[1..] == " b" && " b"[1..] == "b" && "b"[1..] == "";
  }

  /**
   * The inner reduce: the token counts of an example's messages, folded from the
   * left. Every message counts at least one token.
   */
  function MessageTokens(ms: seq<Message>): (r: nat)
    ensures r >= |ms|
  {
    if |ms| == 0 then 0 else MessageTokens(ms[..|ms| - 1]) + TokenCount(ms[|ms| - 1].content)
  }

  /**
   * The outer reduce: the token counts of all examples, folded from the left. The
   * total is at least the number of messages, and 0 for no examples.
   */
  function TotalTokens(examples: seq<TrainingExample>): (r: nat)
    ensures r >= MessageCount(examples)
    ensures |examples| == 0 ==> r == 0
  {
    if |examples| == 0 then 0
    else TotalTokens(examples[..|examples| - 1]) + MessageTokens(examples[|examples| - 1].messages)
  }

  /** The number of messages over all examples. */
  function MessageCount(examples: seq<TrainingExample>): nat
  {
    if |examples| == 0 then 0
    else MessageCount(examples[..|examples| - 1]) + |examples[|examples| - 1].messages|
  }

  /** `getDatasetStats` without its floating-point cost estimate. */
  function GetDatasetStats(d: Dataset): (r: DatasetStats)
    ensures r.totalExamples == |d.examples|
    ensures |d.examples| == 0 ==> r.avgScore == 0 && r.totalTokens == 0
    ensures (forall k | 0 <= k < |d.examples| :: 0 <= d.examples[k].score <= 100) ==>
      0 <= r.avgScore <= 100
    ensures |d.examples| > 0 ==>
      2 * |d.examples| * r.avgScore - |d.examples| <= 2 * SumScores(d.examples)
      < 2 * |d.examples| * r.avgScore + |d.examples|
    ensures r.totalTokens >= MessageCount(d.examples)
  {
    assert (forall k | 0 <= k < |d.examples| :: 0 <= d.examples[k].score <= 100) ==>
      |d.examples| > 0 ==> 0 <= AvgScore(d.examples) <= 100 by {
      if forall k | 0 <= k < |d.examples| :: 0 <= d.examples[k].score <= 100 {
        AvgScoreBounds(d.examples, 0, 100);
      }
    }
    DatasetStats(|d.examples|, AvgScore(d.examples), TotalTokens(d.examples))
  }
}
