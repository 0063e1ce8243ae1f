/**
 * The exporters of `lib/utils.ts`: JSON Lines of `{role, content}` messages,
 * CSV with the first message of each role, and Alpaca-style
 * `{instruction, input, output}` lines, together with readers that show what
 * each output holds.
 */
module Export {

  import opened Wrappers
  import opened Types
  import opened Text
  import opened Json

  /** `messages.find((m) => m.role === role)?.content || ''`. */
  function FirstContent(ms: seq<Message>, role: Role): (r: string)
    ensures (forall k | 0 <= k < |ms| :: ms[k].role != role) ==> r == ""
    ensures forall k | 0 <= k < |ms| && ms[k].role == role && (forall j | 0 <= j < k :: ms[j].role != role) ::
      r == ms[k].content
  {
    if |ms| == 0 then ""
    else if ms[0].role == role then ms[0].content
    else
      assert forall k | 1 <= k < |ms| :: ms[k] == ms[1..][k - 1];
      FirstContent(ms[1..], role)
  }

  // ---------------------------------------------------------------- JSON Lines

  /** A message reduced to the two fields the JSON Lines export keeps. */
  datatype Turn = Turn(role: Role, content: string)

  function Turns(ms: seq<Message>): (ts: seq<Turn>)
    ensures |ts| == |ms|
  {
    seq(|ms|, k requires 0 <= k < |ms| => Turn(ms[k].role, ms[k].content))
  }

  /** `JSON.stringify({ role, content })`. */
  function TurnJson(t: Turn): (s: string)
    ensures '\n' !in s && |s| > 0 && s[0] == '{'
  {
    "{\"role\":" + Quote(RoleName(t.role)) + ",\"content\":" + Quote(t.content) + "}"
  }

  function TurnJsons(ts: seq<Turn>): (r: seq<string>)
    ensures |r| == |ts|
  {
    seq(|ts|, k requires 0 <= k < |ts| => TurnJson(ts[k]))
  }

  /** `JSON.stringify` of an array of turns: the objects joined by commas, in brackets. */
  function TurnsJson(ts: seq<Turn>): (s: string)
    ensures '\n' !in s
  {
    var objs := TurnJsons(ts);
    JoinChars(",", objs, '\n');
    NoCharConcat("[", Join(",", objs), '\n');
    NoCharConcat("[" + Join(",", objs), "]", '\n');
    "[" + Join(",", objs) + "]"
  }

  lemma NoCharConcat(a: string, b: string, c: char)
    requires c !in a && c !in b
    ensures c !in a + b
  {
  }

  /** One line of the JSON Lines export: `JSON.stringify({ messages })`. */
  function JsonlLine(e: TrainingExample): string
  {
    "{\"messages\":" + TurnsJson(Turns(e.messages)) + "}"
  }

  function JsonlLines(examples: seq<TrainingExample>): (r: seq<string>)
    ensures |r| == |examples|
  {
    seq(|examples|, k requires 0 <= k < |examples| => JsonlLine(examples[k]))
  }

  /** `exportToJSONL`: one line per example joined by "\n", no trailing newline. */
  function ExportJsonl(examples: seq<TrainingExample>): (s: string)
    ensures |examples| == 0 ==> s == ""
  {
    Join("\n", JsonlLines(examples))
  }

  /** A `{"role":…,"content":…}` object at the start of `s`, and the text after it. */
  function ParseTurn(s: string): (r: Option<(Turn, string)>)
    ensures r.Some? ==> |r.value.1| < |s|
  {
    var r1 :- Expect("{\"role\":", s);
    var (name, r2) :- ParseString(r1);
    var role :- RoleFromName(name);
    var r3 :- Expect(",\"content\":", r2);
    var (content, r4) :- ParseString(r3);
    var r5 :- Expect("}", r4);
    Some((Turn(role, content), r5))
  }

  /** One or more turn objects separated by commas and closed by `]`. */
  function ParseTurnItems(s: string): (r: Option<(seq<Turn>, string)>)
    ensures r.Some? ==> |r.value.1| < |s|
    decreases |s|
  {
    var (t, rest) :- ParseTurn(s);
    if |rest| > 0 && rest[0] == ',' then
      var (ts, after) :- ParseTurnItems(rest[1..]);
      Some(([t] + ts, after))
    else if |rest| > 0 && rest[0] == ']' then Some(([t], rest[1..]))
    else None
  }

  /** A JSON array of turn objects at the start of `s`, and the text after it. */
  function ParseTurnArray(s: string): (r: Option<(seq<Turn>, string)>)
    ensures r.Some? ==> |r.value.1| < |s|
  {
    var r1 :- Expect("[", s);
    if |r1| > 0 && r1[0] == ']' then Some(([], r1[1..])) else ParseTurnItems(r1)
  }

  /** Reads one line of the JSON Lines export back into its turns. */
  function ParseJsonlLine(line: string): Option<seq<Turn>>
  {
    var r1 :- Expect("{\"messages\":", line);
    var (ts, r2) :- ParseTurnArray(r1);
    if r2 == "}" then Some(ts) else None
  }

  lemma ParseTurnJson(t: Turn, rest: string)
    ensures ParseTurn(TurnJson(t) + rest) == Some((t, rest))
  {
    var q1, q2 := Quote(RoleName(t.role)), Quote(t.content);
    var b := ",\"content\":";
    assert TurnJson(t) + rest == "{\"role\":" + (q1 + (b + (q2 + ("}" + rest))));
    ExpectPrefix("{\"role\":", q1 + (b + (q2 + ("}" + rest))));
    ParseQuote(RoleName(t.role), b + (q2 + ("}" + rest)));
    ExpectPrefix(b, q2 + ("}" + rest));
    ParseQuote(t.content, "}" + rest);
    ExpectPrefix("}", rest);
  }

  /** A last item: a turn object followed by the closing bracket. */
  lemma ParseTurnItemsLast(s: string, t: Turn, rest: string)
    requires ParseTurn(s) == Some((t, "]" + rest))
    ensures ParseTurnItems(s) == Some(([t], rest))
  {
    assert ("]" + rest)[1..] == rest;
  }

  /** An item followed by a comma and further items. */
  lemma ParseTurnItemsNext(s: string, ts: seq<Turn>, tail: string, rest: string)
    requires |ts| > 0
    requires ParseTurn(s) == Some((ts[0], "," + tail))
    requires ParseTurnItems(tail) == Some((ts[1..], rest))
    ensures ParseTurnItems(s) == Some((ts, rest))
  {
    assert ("," + tail)[1..] == tail;
    assert [ts[0]] + ts[1..] == ts;
  }

  lemma {:induction false} ParseTurnItemsJoin(ts: seq<Turn>, rest: string)
    requires |ts| > 0
    ensures ParseTurnItems(Join(",", TurnJsons(ts)) + "]" + rest) == Some((ts, rest))
  {
    if |ts| == 1 {
      ParseTurnItemsSingle(ts, rest);
    } else {
      ParseTurnItemsJoin(ts[1..], rest);
      ParseTurnItemsCons(ts, rest);
    }
  }

  /** A single turn object closed by the bracket. */
  lemma ParseTurnItemsSingle(ts: seq<Turn>, rest: string)
    requires |ts| == 1
    ensures ParseTurnItems(Join(",", TurnJsons(ts)) + "]" + rest) == Some((ts, rest))
  {
    var objs := TurnJsons(ts);
    var s := Join(",", objs) + "]" + rest;
    assert ParseTurn(s) == Some((ts[0], "]" + rest)) by {
      CloseSingle(objs[0], rest);
      ParseTurnJson(ts[0], "]" + rest);
    }
    ParseTurnItemsLast(s, ts[0], rest);
    assert [ts[0]] == ts;
  }

  /** The first of several turn objects, then whatever the remaining ones read as. */
  lemma ParseTurnItemsCons(ts: seq<Turn>, rest: string)
    requires |ts| > 1
    requires ParseTurnItems(Join(",", TurnJsons(ts[1..])) + "]" + rest) == Some((ts[1..], rest))
    ensures ParseTurnItems(Join(",", TurnJsons(ts)) + "]" + rest) == Some((ts, rest))
  {
    var objs := TurnJsons(ts);
    var s := Join(",", objs) + "]" + rest;
    var tail := Join(",", objs[1..]) + "]" + rest;
    assert objs[1..] == TurnJsons(ts[1..]);
    assert ParseTurn(s) == Some((ts[0], "," + tail)) by {
      CloseCons(objs, rest);
      ParseTurnJson(ts[0], "," + tail);
    }
    ParseTurnItemsNext(s, ts, tail, rest);
  }

  /** A single part joined, then closed. */
  lemma CloseSingle(obj: string, rest: string)
    ensures Join(",", [obj]) + "]" + rest == obj + ("]" + rest)
  {
  }

  /** Several parts joined, then closed: the first part, a comma, and the rest closed. */
  lemma CloseCons(objs: seq<string>, rest: string)
    requires |objs| > 1
    ensures Join(",", objs) + "]" + rest == objs[0] + ("," + (Join(",", objs[1..]) + "]" + rest))
  {
  }

  lemma ParseTurnsJson(ts: seq<Turn>, rest: string)
    ensures ParseTurnArray(TurnsJson(ts) + rest) == Some((ts, rest))
  {
    var body := Join(",", TurnJsons(ts)) + "]" + rest;
    assert TurnsJson(ts) + rest == "[" + body;
    if |ts| == 0 {
      assert body == "]" + rest;
      ParseEmptyArray(rest);
    } else {
      JoinStartsWith(TurnJsons(ts));
      ParseArrayItems(body);
      ParseTurnItemsJoin(ts, rest);
    }
  }

  lemma ParseEmptyArray(rest: string)
    ensures ParseTurnArray("[" + ("]" + rest)) == Some(([], rest))
  {
    ExpectPrefix("[", "]" + rest);
    assert ("]" + rest)[1..] == rest;
  }

  lemma ParseArrayItems(body: string)
    requires |body| > 0 && body[0] != ']'
    ensures ParseTurnArray("[" + body) == ParseTurnItems(body)
  {
    ExpectPrefix("[", body);
  }

  /** A comma-joined list of turn objects starts like its first object. */
  lemma JoinStartsWith(objs: seq<string>)
    requires |objs| > 0 && |objs[0]| > 0
    ensures |Join(",", objs)| > 0 && Join(",", objs)[0] == objs[0][0]
  {
  }

  /** Each JSON Lines line holds exactly its example's messages as turns, in order. */
  lemma JsonlLineRoundTrip(e: TrainingExample)
    ensures ParseJsonlLine(JsonlLine(e)) == Some(Turns(e.messages))
  {
    var ts := Turns(e.messages);
    assert JsonlLine(e) == "{\"messages\":" + (TurnsJson(ts) + "}");
    ExpectPrefix("{\"messages\":", TurnsJson(ts) + "}");
    ParseTurnsJson(ts, "}");
  }

  /** No JSON Lines line contains a raw newline. */
  lemma JsonlLineHasNoNewline(e: TrainingExample)
    ensures '\n' !in JsonlLine(e)
  {
    var inner := TurnsJson(Turns(e.messages));
    NoCharConcat("{\"messages\":", inner, '\n');
    NoCharConcat("{\"messages\":" + inner, "}", '\n');
  }

  /**
   * The JSON Lines export of a non-empty list splits into exactly one line per
   * example, with |examples| - 1 newlines, and reading line k gives back the
   * role and content of example k's messages in order.
   */
  lemma JsonlRoundTrip(examples: seq<TrainingExample>)
    requires |examples| > 0
    ensures |SplitLines(ExportJsonl(examples))| == |examples|
    ensures Occurrences(ExportJsonl(examples), '\n') == |examples| - 1
    ensures forall k | 0 <= k < |examples| ::
      ParseJsonlLine(SplitLines(ExportJsonl(examples))[k]) == Some(Turns(examples[k].messages))
  {
    var lines := JsonlLines(examples);
    forall k | 0 <= k < |lines| ensures '\n' !in lines[k] {
      JsonlLineHasNoNewline(examples[k]);
    }
    SplitJoinLines(lines);
    JoinLinesNewlines(lines);
    forall k | 0 <= k < |examples|
      ensures ParseJsonlLine(lines[k]) == Some(Turns(examples[k].messages))
    {
      JsonlLineRoundTrip(examples[k]);
    }
  }

  // ---------------------------------------------------------------------- CSV

  const CsvHeader: string := "id,system,user,assistant,tags,score,created_at"

  /** `s.replace(/"/g, '""')`: every double quote doubled. */
  function DoubleQuotes(s: string): (r: string)
    ensures |r| == |s| + Occurrences(s, '"')
  {
    if |s| == 0 then ""
    else (if s[0] == '"' then "\"\"" else [s[0]]) + DoubleQuotes(s[1..])
  }

  /** A text column: the content with its quotes doubled, between double quotes. */
  function QuoteField(s: string): string
  {
    "\"" + DoubleQuotes(s) + "\""
  }

  /** The tags column: the tags joined by ", " between double quotes, not escaped. */
  function TagsField(tags: seq<string>): string
  {
    "\"" + Join(", ", tags) + "\""
  }

  /** One CSV row: id, the first system, user and assistant contents, tags, score, createdAt. */
  function CsvRow(e: TrainingExample): (r: string)
    ensures |r| > |e.id| + |e.createdAt|
    ensures r[..|e.id| + 1] == e.id + ","
    ensures r[|r| - |e.createdAt| - 1..] == "," + e.createdAt
  {
    var fs := [e.id,
      QuoteField(FirstContent(e.messages, System)),
      QuoteField(FirstContent(e.messages, User)),
      QuoteField(FirstContent(e.messages, Assistant)),
      TagsField(e.tags),
      IntToString(e.score),
      e.createdAt];
    assert Join(",", fs) == e.id + ("," + Join(",", fs[1..])) by {
      JoinCons(",", fs);
    }
    assert Join(",", fs) == Join(",", fs[..6]) + ("," + e.createdAt) by {
      assert fs == fs[..6] + [e.createdAt];
      JoinSnoc(",", fs[..6], e.createdAt);
    }
    Join(",", fs)
  }

  function CsvRows(examples: seq<TrainingExample>): (r: seq<string>)
    ensures |r| == |examples|
  {
    seq(|examples|, k requires 0 <= k < |examples| => CsvRow(examples[k]))
  }

  /**
   * `exportToCSV`: the header line, then one row per example, joined by "\n". The
   * export starts with the header line; an empty list exports the header alone.
   */
  function ExportCsv(examples: seq<TrainingExample>): (r: string)
    ensures |examples| == 0 ==> r == CsvHeader
    ensures |examples| > 0 ==> r == CsvHeader + "\n" + Join("\n", CsvRows(examples))
  {
    var parts := [CsvHeader] + CsvRows(examples);
    assert |examples| == 0 ==> parts == [CsvHeader];
    assert |examples| > 0 ==> parts[1..] == CsvRows(examples);
    Join("\n", parts)
  }

  /** Exporting one more example adds exactly its row as a new last line. */
  lemma CsvAppend(examples: seq<TrainingExample>, e: TrainingExample)
    ensures ExportCsv(examples + [e]) == ExportCsv(examples) + "\n" + CsvRow(e)
  {
    assert CsvRows(examples + [e]) == CsvRows(examples) + [CsvRow(e)];
    assert [CsvHeader] + CsvRows(examples + [e]) == ([CsvHeader] + CsvRows(examples)) + [CsvRow(e)];
    JoinSnoc("\n", [CsvHeader] + CsvRows(examples), CsvRow(e));
  }

  /**
   * Reads a quoted field as section 2 of RFC 4180 describes it: between double
   * quotes, with `""` standing for one `"`. Gives the content and the text after
   * the closing quote.
   */
  function ParseQuotedBody(s: string): (r: Option<(string, string)>)
    ensures r.Some? ==> |r.value.1| < |s|
    decreases |s|
  {
    if |s| == 0 then None
    else if s[0] == '"' then
      if |s| >= 2 && s[1] == '"' then
        var (body, after) :- ParseQuotedBody(s[2..]);
        Some(("\"" + body, after))
      else Some(("", s[1..]))
    else
      var (body, after) :- ParseQuotedBody(s[1..]);
      Some(([s[0]] + body, after))
  }

  function ParseQuotedField(s: string): (r: Option<(string, string)>)
    ensures r.Some? ==> |r.value.1| < |s|
  {
    if |s| > 0 && s[0] == '"' then ParseQuotedBody(s[1..]) else None
  }

  lemma {:induction false} ParseDoubledBody(x: string, rest: string)
    requires |rest| == 0 || rest[0] != '"'
    ensures ParseQuotedBody(DoubleQuotes(x) + "\"" + rest) == Some((x, rest))
  {
    var s := DoubleQuotes(x) + "\"" + rest;
    if |x| == 0 {
      assert s == "\"" + rest;
      assert s[1..] == rest;
    } else {
      var tail := DoubleQuotes(x[1..]) + "\"" + rest;
      ParseDoubledBody(x[1..], rest);
      if x[0] == '"' {
        assert s == "\"\"" + tail;
        assert s[2..] == tail;
      } else {
        assert s == [x[0]] + tail;
        assert s[1..] == tail;
      }
      assert [x[0]] + x[1..] == x;
    }
  }

  /** Undoing the quote doubling recovers the content, whatever quotes it holds. */
  lemma ParseQuoteField(x: string, rest: string)
    requires |rest| == 0 || rest[0] != '"'
    ensures ParseQuotedField(QuoteField(x) + rest) == Some((x, rest))
  {
    assert (QuoteField(x) + rest)[1..] == DoubleQuotes(x) + "\"" + rest;
    ParseDoubledBody(x, rest);
  }

  /** The three quoted text columns that follow the id column, and the text after them. */
  function ParseTextColumns(s: string): Option<(string, string, string, string)>
  {
    var (system, r1) :- ParseQuotedField(s);
    var r2 :- Expect(",", r1);
    var (user, r3) :- ParseQuotedField(r2);
    var r4 :- Expect(",", r3);
    var (assistant, r5) :- ParseQuotedField(r4);
    var r6 :- Expect(",", r5);
    Some((system, user, assistant, r6))
  }

  /**
   * After the id and its comma, a CSV row reads back as the first system, user
   * and assistant contents, followed by the tags, score and createdAt columns.
   */
  lemma CsvRowTextColumns(e: TrainingExample)
    ensures |CsvRow(e)| > |e.id|
    ensures CsvRow(e)[..|e.id| + 1] == e.id + ","
    ensures ParseTextColumns(CsvRow(e)[|e.id| + 1..]) == Some((
      FirstContent(e.messages, System),
      FirstContent(e.messages, User),
      FirstContent(e.messages, Assistant),
      Join(",", [TagsField(e.tags), IntToString(e.score), e.createdAt])))
  {
    var sys, usr, ast := FirstContent(e.messages, System), FirstContent(e.messages, User),
      FirstContent(e.messages, Assistant);
    var fs := [e.id, QuoteField(sys), QuoteField(usr), QuoteField(ast),
      TagsField(e.tags), IntToString(e.score), e.createdAt];
    var j1, j2, j3, j4 := Join(",", fs[1..]), Join(",", fs[2..]), Join(",", fs[3..]), Join(",", fs[4..]);
    JoinCons(",", fs);
    JoinCons(",", fs[1..]);
    assert fs[1..][1..] == fs[2..];
    JoinCons(",", fs[2..]);
    assert fs[2..][1..] == fs[3..];
    JoinCons(",", fs[3..]);
    assert fs[3..][1..] == fs[4..];
    assert fs[4..] == [TagsField(e.tags), IntToString(e.score), e.createdAt];
    assert CsvRow(e) == e.id + ("," + j1);
    DropPrefix(e.id + ",", j1);
    assert e.id + ("," + j1) == (e.id + ",") + j1;
    ParseTextColumnsOf(sys, usr, ast, j4);
  }

  /** Joining two or more parts: the first part, the separator, the rest joined. */
  lemma JoinCons(sep: string, parts: seq<string>)
    requires |parts| > 1
    ensures Join(sep, parts) == parts[0] + (sep + Join(sep, parts[1..]))
  {
  }

  lemma DropPrefix(a: string, b: string)
    ensures (a + b)[..|a|] == a && (a + b)[|a|..] == b
  {
  }

  /** The three quoted text columns, each followed by a comma, read back. */
  lemma ParseTextColumnsOf(sys: string, usr: string, ast: string, tail: string)
    ensures ParseTextColumns(QuoteField(sys) + ("," + (QuoteField(usr) + ("," + (QuoteField(ast) + ("," + tail))))))
      == Some((sys, usr, ast, tail))
  {
    ParseQuoteField(sys, "," + (QuoteField(usr) + ("," + (QuoteField(ast) + ("," + tail)))));
    ExpectPrefix(",", QuoteField(usr) + ("," + (QuoteField(ast) + ("," + tail))));
    ParseQuoteField(usr, "," + (QuoteField(ast) + ("," + tail)));
    ExpectPrefix(",", QuoteField(ast) + ("," + tail));
    ParseQuoteField(ast, "," + tail);
    ExpectPrefix(",", tail);
  }

  /** The text before the first `c` in `s` and the text after it, when `s` holds a `c`. */
  function SplitAt(s: string, c: char): (r: Option<(string, string)>)
    ensures r.None? <==> c !in s
    ensures r.Some? ==> c !in r.value.0 && s == r.value.0 + [c] + r.value.1
  {
    if |s| == 0 then None
    else if s[0] == c then Some(("", s[1..]))
    else
      var (before, after) :- SplitAt(s[1..], c);
      Some(([s[0]] + before, after))
  }

  lemma {:induction false} SplitAtFirst(a: string, c: char, b: string)
    requires c !in a
    ensures SplitAt(a + [c] + b, c) == Some((a, b))
  {
    var s := a + [c] + b;
    if |a| == 0 {
      assert s == [c] + b;
      assert s[1..] == b;
    } else {
      assert s[1..] == a[1..] + [c] + b;
      SplitAtFirst(a[1..], c, b);
      assert [a[0]] + a[1..] == a;
    }
  }

  /** A text the score column can hold: an optional minus sign, then one or more digits. */
  predicate IsIntText(s: string)
  {
    |s| > 0
    && (s[0] == '-' ==> |s| > 1 && forall k | 1 <= k < |s| :: IsDigit(s[k]))
    && (s[0] != '-' ==> forall k | 0 <= k < |s| :: IsDigit(s[k]))
  }

  /**
   * The last three columns of a row: the quoted tags (read up to the next double
   * quote, since they are not escaped), the score, and everything after the score's
   * comma as createdAt.
   */
  function ParseTailColumns(s: string): Option<(string, int, string)>
  {
    var r1 :- Expect("\"", s);
    var (tags, r2) :- SplitAt(r1, '"');
    var r3 :- Expect(",", r2);
    var (score, createdAt) :- SplitAt(r3, ',');
    if IsIntText(score) then Some((tags, IntValue(score), createdAt)) else None
  }

  /**
   * When no tag holds a double quote, the last three columns read back as the tags
   * joined by ", ", the score and createdAt, whatever createdAt holds.
   */
  lemma CsvTailColumns(tags: seq<string>, score: int, createdAt: string)
    requires forall k | 0 <= k < |tags| :: '"' !in tags[k]
    ensures ParseTailColumns(Join(",", [TagsField(tags), IntToString(score), createdAt]))
      == Some((Join(", ", tags), score, createdAt))
  {
    CsvTailText(tags, IntToString(score), createdAt);
    assert '"' !in Join(", ", tags) by {
      JoinChars(", ", tags, '"');
    }
    ParseTailOf(Join(", ", tags), score, createdAt);
  }

  /** The last three columns written out: the quoted tags, a comma, the score, a comma, createdAt. */
  lemma CsvTailText(tags: seq<string>, digits: string, createdAt: string)
    ensures Join(",", [TagsField(tags), digits, createdAt])
      == "\"" + (Join(", ", tags) + ("\"" + ("," + (digits + ("," + createdAt)))))
  {
    JoinCons(",", [TagsField(tags), digits, createdAt]);
    assert [TagsField(tags), digits, createdAt][1..] == [digits, createdAt];
    JoinCons(",", [digits, createdAt]);
    assert [digits, createdAt][1..] == [createdAt];
  }

  lemma ParseTailOf(tags: string, score: int, createdAt: string)
    requires '"' !in tags
    ensures ParseTailColumns("\"" + (tags + ("\"" + ("," + (IntToString(score) + ("," + createdAt))))))
      == Some((tags, score, createdAt))
  {
    var digits := IntToString(score);
    var dated := digits + ("," + createdAt);
    var after := "," + dated;
    assert Expect("\"", "\"" + (tags + ("\"" + after))) == Some(tags + ("\"" + after)) by {
      ExpectPrefix("\"", tags + ("\"" + after));
    }
    assert SplitAt(tags + ("\"" + after), '"') == Some((tags, after)) by {
      assert tags + ("\"" + after) == tags + ['"'] + after;
      SplitAtFirst(tags, '"', after);
    }
    assert Expect(",", after) == Some(dated) by {
      ExpectPrefix(",", dated);
    }
    assert SplitAt(dated, ',') == Some((digits, createdAt)) by {
      assert dated == digits + [','] + createdAt;
      assert ',' !in digits by {
        forall k | 0 <= k < |digits| ensures digits[k] != ',' {
          assert k > 0 || digits[0] == '-' || IsDigit(digits[0]);
        }
      }
      SplitAtFirst(digits, ',', createdAt);
    }
    assert IsIntText(digits) && IntValue(digits) == score by {
      IntToStringRoundTrip(score);
    }
  }

  /** The seven columns of a CSV row, as read back. */
  datatype CsvRecord = CsvRecord(
    id: string, systemPrompt: string, userMessage: string, assistantResponse: string,
    tags: string, score: int, createdAt: string)

  /**
   * Reads one CSV row: the id up to the first comma, the three quoted text
   * columns, then the tags, score and createdAt columns.
   */
  function ParseCsvRow(row: string): Option<CsvRecord>
  {
    var (id, r1) :- SplitAt(row, ',');
    var (system, user, assistant, r2) :- ParseTextColumns(r1);
    var (tags, score, createdAt) :- ParseTailColumns(r2);
    Some(CsvRecord(id, system, user, assistant, tags, score, createdAt))
  }

  /**
   * With no comma in the id and no double quote in a tag, a row reads back as the
   * id, the first system, user and assistant contents, the tags joined by ", ",
   * the score and createdAt.
   */
  lemma CsvRowRoundTrip(e: TrainingExample)
    requires ',' !in e.id
    requires forall k | 0 <= k < |e.tags| :: '"' !in e.tags[k]
    ensures ParseCsvRow(CsvRow(e)) == Some(CsvRecord(
      e.id,
      FirstContent(e.messages, System),
      FirstContent(e.messages, User),
      FirstContent(e.messages, Assistant),
      Join(", ", e.tags), e.score, e.createdAt))
  {
    var row := CsvRow(e);
    var rest := row[|e.id| + 1..];
    CsvRowTextColumns(e);
    assert SplitAt(row, ',') == Some((e.id, rest)) by {
      assert row == row[..|e.id| + 1] + rest;
      assert row == e.id + [','] + rest;
      SplitAtFirst(e.id, ',', rest);
    }
    CsvTailColumns(e.tags, e.score, e.createdAt);
  }

  /**
   * A double quote inside a tag ends the tags column early: with the single tag
   * `"` the reader finds no comma after the closing quote and rejects the row.
   */
  lemma CsvTagQuoteUnescaped()
    ensures ParseTailColumns(Join(",", [TagsField(["\""]), IntToString(0), ""])) == None
  {
    CsvTailText(["\""], IntToString(0), "");
    var u := "\"" + ("," + ("0" + ("," + "")));
    var r1 := "\"" + u;
    assert Join(",", [TagsField(["\""]), IntToString(0), ""]) == "\"" + r1;
    ExpectPrefix("\"", r1);
    assert r1[0] == '"' && r1[1..] == u;
    assert SplitAt(r1, '"') == Some(("", u));
    assert u[..1] != ",";
  }

  // ------------------------------------------------------------------- Alpaca

  /** The three fields of an Alpaca record. */
  datatype AlpacaRecord = AlpacaRecord(instruction: string, input: string, output: string)

  /** `JSON.stringify({ instruction, input: systemPrompt, output })`. */
  function AlpacaLine(e: TrainingExample): string
  {
    AlpacaJson(FirstContent(e.messages, User), FirstContent(e.messages, System),
      FirstContent(e.messages, Assistant))
  }

  /** The Alpaca object for three field values, keys in the order the exporter writes them. */
  function AlpacaJson(instruction: string, input: string, output: string): (s: string)
    ensures '\n' !in s
  {
    "{\"instruction\":" + (Quote(instruction)
      + (",\"input\":" + (Quote(input)
      + (",\"output\":" + (Quote(output) + "}")))))
  }

  function AlpacaLines(examples: seq<TrainingExample>): (r: seq<string>)
    ensures |r| == |examples|
  {
    seq(|examples|, k requires 0 <= k < |examples| => AlpacaLine(examples[k]))
  }

  /** `exportToAlpaca`: one line per example joined by "\n", no trailing newline. */
  function ExportAlpaca(examples: seq<TrainingExample>): (s: string)
    ensures |examples| == 0 ==> s == ""
  {
    Join("\n", AlpacaLines(examples))
  }

  /** Reads one Alpaca line back into its three fields. */
  function ParseAlpacaLine(line: string): Option<AlpacaRecord>
  {
    var r1 :- Expect("{\"instruction\":", line);
    var (instruction, r2) :- ParseString(r1);
    var r3 :- Expect(",\"input\":", r2);
    var (input, r4) :- ParseString(r3);
    var r5 :- Expect(",\"output\":", r4);
    var (output, r6) :- ParseString(r5);
    if r6 == "}" then Some(AlpacaRecord(instruction, input, output)) else None
  }

  /** Reading an Alpaca object back gives its three field values. */
  lemma ParseAlpacaJson(instruction: string, input: string, output: string)
    ensures ParseAlpacaLine(AlpacaJson(instruction, input, output))
      == Some(AlpacaRecord(instruction, input, output))
  {
    var bi, bo := ",\"input\":", ",\"output\":";
    var q1, q2, q3 := Quote(instruction), Quote(input), Quote(output);
    ExpectPrefix("{\"instruction\":", q1 + (bi + (q2 + (bo + (q3 + "}")))));
    ParseQuote(instruction, bi + (q2 + (bo + (q3 + "}"))));
    ExpectPrefix(bi, q2 + (bo + (q3 + "}")));
    ParseQuote(input, bo + (q3 + "}"));
    ExpectPrefix(bo, q3 + "}");
    ParseQuote(output, "}");
  }

  /** An Alpaca line holds the first user, system and assistant contents, "" for a missing role. */
  lemma AlpacaLineRoundTrip(e: TrainingExample)
    ensures ParseAlpacaLine(AlpacaLine(e)) == Some(AlpacaRecord(
      FirstContent(e.messages, User),
      FirstContent(e.messages, System),
      FirstContent(e.messages, Assistant)))
  {
    ParseAlpacaJson(FirstContent(e.messages, User), FirstContent(e.messages, System),
      FirstContent(e.messages, Assistant));
  }

  /**
   * The Alpaca export of a non-empty list splits into one line per example,
   * and line k reads back as example k's record.
   */
  lemma AlpacaRoundTrip(examples: seq<TrainingExample>)
    requires |examples| > 0
    ensures |SplitLines(ExportAlpaca(examples))| == |examples|
    ensures Occurrences(ExportAlpaca(examples), '\n') == |examples| - 1
    ensures forall k | 0 <= k < |examples| ::
      ParseAlpacaLine(SplitLines(ExportAlpaca(examples))[k]) == Some(AlpacaRecord(
        FirstContent(examples[k].messages, User),
        FirstContent(examples[k].messages, System),
        FirstContent(examples[k].messages, Assistant)))
  {
    var lines := AlpacaLines(examples);
    assert forall k | 0 <= k < |lines| :: '\n' !in lines[k];
    SplitJoinLines(lines);
    JoinLinesNewlines(lines);
    forall k | 0 <= k < |examples|
      ensures ParseAlpacaLine(lines[k]) == Some(AlpacaRecord(
        FirstContent(examples[k].messages, User),
        FirstContent(examples[k].messages, System),
        FirstContent(examples[k].messages, Assistant)))
    {
      AlpacaLineRoundTrip(examples[k]);
    }
  }
}
