/**
 * questions.py: distances from the query embedding, the greedy context
 * assembler `create_context`, and the prompt built by `answer_question`.
 * The embedding and completion services are parameters; the scipy distance
 * functions are an opaque `distance` parameter.
 */
module Questions {
  import opened Wrappers
  import opened Strings

  // ---------------------------------------------------------------- distances

  /** The scipy distance functions the metric table can name. */
  datatype Metric = Cosine | Chebyshev | Euclidean

  /** The `distance_metrics` dictionary, quirk included: "L1" names Chebyshev, as "Linf" does. */
  const DistanceMetrics: map<string, Metric> :=
    map["cosine" := Cosine, "L1" := Chebyshev, "L2" := Euclidean, "Linf" := Chebyshev]

  /** The `KeyError` raised by an unknown metric name. */
  datatype LookupError = KeyError(name: string)

  /** The comprehension body applied to every embedding, in order. */
  function DistanceEach<V, K>(query: V, embeddings: seq<V>, metric: Metric, distance: (Metric, V, V) -> K): (r: seq<K>)
    ensures |r| == |embeddings|
    ensures forall i :: 0 <= i < |embeddings| ==> r[i] == distance(metric, query, embeddings[i])
    decreases |embeddings|
  {
    if embeddings == [] then []
    else [distance(metric, query, embeddings[0])] + DistanceEach(query, embeddings[1..], metric, distance)
  }

  /**
   * `distances_from_embeddings`: one distance per stored embedding, in order.
   * The dictionary lookup sits inside the comprehension, so it fails only when
   * there is at least one embedding to measure.
   */
  function DistancesFromEmbeddings<V, K>(query: V, embeddings: seq<V>, distance: (Metric, V, V) -> K, metricName: string := "cosine")
    : (r: Result<seq<K>, LookupError>)
    ensures r.Err? <==> |embeddings| > 0 && metricName !in DistanceMetrics
    ensures r.Err? ==> r.error == KeyError(metricName)
    ensures r.Ok? ==> |r.value| == |embeddings|
    ensures r.Ok? ==> forall i :: 0 <= i < |embeddings| ==>
      r.value[i] == distance(DistanceMetrics[metricName], query, embeddings[i])
  {
    if |embeddings| == 0 then Ok([])
    else if metricName !in DistanceMetrics then Err(KeyError(metricName))
    else Ok(DistanceEach(query, embeddings, DistanceMetrics[metricName], distance))
  }

  /** "L1" and "Linf" give the same distances: both look up the Chebyshev function. */
  lemma L1IsChebyshev<V, K>(query: V, embeddings: seq<V>, distance: (Metric, V, V) -> K)
    ensures DistancesFromEmbeddings(query, embeddings, distance, "L1")
         == DistancesFromEmbeddings(query, embeddings, distance, "Linf")
  {
  }

  // --------------------------------------------------------- context assembly

  /**
   * A row of the retrieval table as `create_context` reads it. `distance` is
   * the value of the `distances` column, used only as an ordered key.
   */
  datatype Row = Row(text: string, nTokens: nat, distance: real)

  /** The separator placed between chunks of the context. */
  const Delimiter := "\n\n###\n\n"

  /** The rows after `sort_values('distances', ascending=True)`: nearest first. */
  predicate SortedByDistance(rows: seq<Row>)
  {
    forall i, j :: 0 <= i < j < |rows| ==> rows[i].distance <= rows[j].distance
  }

  /** What one row adds to the running total `cur_len`. */
  function RowCost(row: Row): nat
  {
    row.nTokens + 4
  }

  /** The running total after a run of rows. */
  function Cost(rows: seq<Row>): nat
    decreases |rows|
  {
    if rows == [] then 0 else RowCost(rows[0]) + Cost(rows[1..])
  }

  /** The `text` column of a run of rows. */
  function Texts(rows: seq<Row>): (r: seq<string>)
    ensures |r| == |rows|
    ensures forall i :: 0 <= i < |rows| ==> r[i] == rows[i].text
    decreases |rows|
  {
    if rows == [] then [] else [rows[0].text] + Texts(rows[1..])
  }

  /**
   * The first `k` rows are what the walk accepts under `maxLen`: they fit, and
   * either every row was taken or the next one would overflow the budget.
   */
  predicate IsGreedyPrefix(rows: seq<Row>, maxLen: int, k: nat)
  {
    k <= |rows| &&
    (k > 0 ==> Cost(rows[..k]) <= maxLen) &&
    (k < |rows| ==> Cost(rows[..k + 1]) > maxLen)
  }

  /** How many rows the greedy walk takes, counted by spending the budget row by row. */
  function GreedyCount(rows: seq<Row>, budget: int): (k: nat)
    ensures k <= |rows|
    decreases |rows|
  {
    if rows == [] || RowCost(rows[0]) > budget then 0
    else 1 + GreedyCount(rows[1..], budget - RowCost(rows[0]))
  }

  /** The context `create_context` returns for rows already ranked by distance. */
  function Context(rows: seq<Row>, maxLen: int): string
  {
    Join(Delimiter, Texts(rows[..GreedyCount(rows, maxLen)]))
  }

  lemma {:induction false} CostAppend(rows: seq<Row>, row: Row)
    ensures Cost(rows + [row]) == Cost(rows) + RowCost(row)
    decreases |rows|
  {
    if rows != [] {
      assert (rows + [row])[1..] == rows[1..] + [row];
      CostAppend(rows[1..], row);
    }
  }

  /** Taking one more row raises the total by that row's cost; in particular by at least 4. */
  lemma {:induction false} CostPrefixStep(rows: seq<Row>, k: nat)
    requires k < |rows|
    ensures Cost(rows[..k + 1]) == Cost(rows[..k]) + RowCost(rows[k])
  {
    assert rows[..k + 1] == rows[..k] + [rows[k]];
    CostAppend(rows[..k], rows[k]);
  }

  /** Prefix totals only grow. */
  lemma {:induction false} CostPrefixMonotone(rows: seq<Row>, i: nat, j: nat)
    requires i <= j <= |rows|
    ensures Cost(rows[..i]) <= Cost(rows[..j])
    decreases j - i
  {
    if i < j {
      CostPrefixStep(rows, j - 1);
      CostPrefixMonotone(rows, i, j - 1);
    }
  }

  /** The budget-spending count is the greedy prefix. */
  lemma {:induction false} GreedyCountIsGreedyPrefix(rows: seq<Row>, budget: int)
    ensures IsGreedyPrefix(rows, budget, GreedyCount(rows, budget))
    decreases |rows|
  {
    if rows == [] {
    } else if RowCost(rows[0]) > budget {
      assert rows[..1] == [rows[0]];
    } else {
      var c := RowCost(rows[0]);
      var tail := rows[1..];
      GreedyCountIsGreedyPrefix(tail, budget - c);
      var k := GreedyCount(tail, budget - c);
      assert rows[..k + 1][1..] == tail[..k];
      assert Cost(rows[..k + 1]) == c + Cost(tail[..k]);
      if k + 1 < |rows| {
        assert rows[..k + 2][1..] == tail[..k + 1];
        assert Cost(rows[..k + 2]) == c + Cost(tail[..k + 1]);
      }
    }
  }

  /** No other count meets the greedy-prefix description: the selection is determined. */
  lemma GreedyPrefixUnique(rows: seq<Row>, maxLen: int, k: nat)
    requires IsGreedyPrefix(rows, maxLen, k)
    ensures k == GreedyCount(rows, maxLen)
  {
    var g := GreedyCount(rows, maxLen);
    GreedyCountIsGreedyPrefix(rows, maxLen);
    if k < g {
      CostPrefixMonotone(rows, k + 1, g);
    } else if g < k {
      CostPrefixMonotone(rows, g + 1, k);
    }
  }

  /** When the whole ranked table fits the budget, every row is selected. */
  lemma AllSelectedWhenTableFits(rows: seq<Row>, maxLen: int)
    requires Cost(rows) <= maxLen
    ensures GreedyCount(rows, maxLen) == |rows|
    ensures Context(rows, maxLen) == Join(Delimiter, Texts(rows))
  {
    var g := GreedyCount(rows, maxLen);
    GreedyCountIsGreedyPrefix(rows, maxLen);
    assert rows[..|rows|] == rows;
    if g < |rows| {
      CostPrefixMonotone(rows, g + 1, |rows|);
      assert false;
    }
  }

  /** When the nearest row alone is over budget, the context is empty. */
  lemma NearestTooBigGivesEmptyContext(rows: seq<Row>, maxLen: int)
    requires rows != [] && RowCost(rows[0]) > maxLen
    ensures Context(rows, maxLen) == ""
  {
  }

  /**
   * The context is the first selected text followed by each later selected
   * text after the delimiter; all texts come from a prefix of the ranking,
   * whose total cost is within the budget.
   */
  lemma ContextShape(rows: seq<Row>, maxLen: int)
    requires GreedyCount(rows, maxLen) > 0
    ensures GreedyCount(rows, maxLen) <= |rows|
    ensures Cost(rows[..GreedyCount(rows, maxLen)]) <= maxLen
    ensures Context(rows, maxLen)
         == rows[0].text + Prefixed(Delimiter, Texts(rows[1..GreedyCount(rows, maxLen)]))
  {
    var k := GreedyCount(rows, maxLen);
    GreedyCountIsGreedyPrefix(rows, maxLen);
    JoinShape(Delimiter, Texts(rows[..k]));
    assert Texts(rows[..k])[1..] == Texts(rows[1..k]);
  }

  /**
   * Three ranked chunks C3 (0.1), C1 (0.3), C2 (0.5) under a budget that admits
   * C3 and C1 but not all three: the context is C3, the delimiter, then C1.
   */
  lemma TwoOfThreeSelected()
    ensures Context([Row("C3", 10, 0.1), Row("C1", 20, 0.3), Row("C2", 30, 0.5)], 40)
         == "C3" + Delimiter + "C1"
  {
    var rows := [Row("C3", 10, 0.1), Row("C1", 20, 0.3), Row("C2", 30, 0.5)];
    assert GreedyCount(rows, 40) == 2;
    assert rows[..2] == [rows[0], rows[1]];
  }

  /**
   * The greedy loop of `create_context`: walk the ranked rows, add each row's
   * `n_tokens + 4` to the running total and stop at the first row that would
   * push it past `maxLen`; keep the texts accepted before that.
   */
  method SelectChunks(rows: seq<Row>, maxLen: int) returns (accepted: seq<string>)
    ensures IsGreedyPrefix(rows, maxLen, |accepted|)
    ensures accepted == Texts(rows[..|accepted|])
  {
    accepted := [];
    var curLen := 0;
    var i := 0;
    while i < |rows|
      invariant 0 <= i <= |rows|
      invariant curLen == Cost(rows[..i])
      invariant i > 0 ==> curLen <= maxLen
      invariant accepted == Texts(rows[..i])
    {
      CostPrefixStep(rows, i);
      curLen := curLen + rows[i].nTokens + 4;
      if curLen > maxLen {
        break;
      }
      assert Texts(rows[..i + 1]) == Texts(rows[..i]) + [rows[i].text];
      accepted := accepted + [rows[i].text];
      i := i + 1;
    }
  }

  /**
   * `create_context` once the rows are ranked: the selected texts joined by the
   * delimiter. Every selected row is at least as near as every row left out.
   */
  method CreateContext(rows: seq<Row>, maxLen: int := 1800) returns (context: string)
    requires SortedByDistance(rows)
    ensures context == Context(rows, maxLen)
    ensures forall i, j :: 0 <= i < GreedyCount(rows, maxLen) <= j < |rows| ==> rows[i].distance <= rows[j].distance
  {
    var accepted := SelectChunks(rows, maxLen);
    GreedyPrefixUnique(rows, maxLen, |accepted|);
    context := Join(Delimiter, accepted);
  }

  // ------------------------------------------------------------------ prompt

  /** The fixed instruction opening every prompt. */
  const Instruction := "Answer the question based on the context below, and if the question "
    + "can't be answered based on the context, say \"I don't know.\" Try to "
    + "cite sources to the links in the context when possible.\n\n"

  const ContextLabel := "Context: "
  const Rule := "\n\n---\n\n"
  const QuestionLabel := "Question: "
  const AnswerCue := "\nAnswer:"

  /** The prompt template of `answer_question`. */
  function Prompt(context: string, question: string): string
  {
    Instruction + ContextLabel + context + Rule + QuestionLabel + question + AnswerCue
  }

  /** Where the context starts in any prompt. */
  function ContextStart(): nat
  {
    |Instruction| + |ContextLabel|
  }

  /** Reads the context back out of a prompt, given the context's length. */
  function ContextOf(prompt: string, contextLength: nat): string
  {
    var start := ContextStart();
    if start + contextLength <= |prompt| then prompt[start..start + contextLength] else ""
  }

  /** Reads the question back out of a prompt, given the context's length. */
  function QuestionOf(prompt: string, contextLength: nat): string
  {
    var start := ContextStart() + contextLength + |Rule| + |QuestionLabel|;
    if start + |AnswerCue| <= |prompt| then prompt[start..|prompt| - |AnswerCue|] else ""
  }

  /**
   * The prompt opens with the instruction, ends with "Answer:", and the
   * context and question can be read back out of it.
   */
  lemma PromptRoundTrip(context: string, question: string)
    ensures Instruction <= Prompt(context, question)
    ensures |Prompt(context, question)| == ContextStart() + |context| + |Rule| + |QuestionLabel| + |question| + |AnswerCue|
    ensures Prompt(context, question)[|Prompt(context, question)| - 7..] == "Answer:"
    ensures ContextOf(Prompt(context, question), |context|) == context
    ensures QuestionOf(Prompt(context, question), |context|) == question
  {
    var p := Prompt(context, question);
    var start := ContextStart();
    assert p == (Instruction + ContextLabel) + context + (Rule + QuestionLabel) + question + AnswerCue;
    assert p[start..start + |context|] == context;
    var qs := start + |context| + |Rule| + |QuestionLabel|;
    assert p[qs..|p| - |AnswerCue|] == question;
    assert p[|p| - 7..] == AnswerCue[1..];
  }

  /** Two prompts with equally long contexts are equal only when context and question are. */
  lemma PromptInjective(c1: string, q1: string, c2: string, q2: string)
    requires |c1| == |c2| && Prompt(c1, q1) == Prompt(c2, q2)
    ensures c1 == c2 && q1 == q2
  {
    PromptRoundTrip(c1, q1);
    PromptRoundTrip(c2, q2);
  }

  // ----------------------------------------------------------- answering

  datatype Message = Message(role: string, content: string)

  /** The arguments of the chat-completion call. */
  datatype Request = Request(
    model: string, messages: seq<Message>, temperature: int, maxTokens: int,
    topP: int, frequencyPenalty: int, presencePenalty: int, stop: Option<string>)

  /** What the completion call does: return a message's content, or raise. */
  datatype Reply = Completed(content: string) | Raised

  /** The request `answer_question` sends: the prompt as one user message, deterministic sampling. */
  function CompletionRequest(model: string, prompt: string, maxTokens: int, stop: Option<string>): Request
  {
    Request(model, [Message("user", prompt)], 0, maxTokens, 1, 0, 0, stop)
  }

  /**
   * `answer_question` over ranked rows: build the context, then the prompt,
   * then ask `complete`; any exception in that try block yields "".
   */
  method AnswerQuestion(rows: seq<Row>, complete: Request -> Reply,
                        model: string := "gpt-4o", question: string := "What is the meaning of life?",
                        maxLen: int := 1800, maxTokens: int := 150, stop: Option<string> := None)
    returns (answer: string)
    requires SortedByDistance(rows)
    ensures complete(CompletionRequest(model, Prompt(Context(rows, maxLen), question), maxTokens, stop)).Raised?
            ==> answer == ""
    ensures complete(CompletionRequest(model, Prompt(Context(rows, maxLen), question), maxTokens, stop)).Completed?
            ==> answer == complete(CompletionRequest(model, Prompt(Context(rows, maxLen), question), maxTokens, stop)).content
  {
    var context := CreateContext(rows, maxLen);
    var prompt := Prompt(context, question);
    var reply := complete(CompletionRequest(model, prompt, maxTokens, stop));
    match reply {
      case Completed(content) => answer := content;
      case Raised => answer := "";
    }
  }
}
