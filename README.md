# Retrieval-augmented answering: corpus preparation and context assembly

A Dafny model of the logic of a small retrieval-augmented-generation pipeline.
The pipeline prepares a corpus of scraped documentation pages, embeds it, and
answers questions by sending the nearest chunks to a completion service. The
model covers the two pieces of plain logic around the embedding and completion
services:

- `questions.py` (module `Questions`, file `questions.dfy`):
  - `distances_from_embeddings`: the metric table and one distance per stored embedding.
  - the greedy `create_context` loop: walk the rows nearest first, add `n_tokens + 4` to a running total, stop at the first row that would exceed `max_len`, and join the accepted texts with `"\n\n###\n\n"`.
  - the prompt template and the empty-string fallback of `answer_question`.
- `embedding/embed.py` (module `Embed`, file `embed.dfy`):
  - `remove_newlines`.
  - how a file name becomes a title, and the login and contributor-page skip filter.
  - prefixing each text with its title.
  - the routing loop that builds `shortened`. A missing text adds nothing. A text of at most 1000 tokens is kept whole. A longer text is replaced by the splitter's pieces, in order.
- `strings.dfy` (module `Strings`) defines the string operations these rely on,
  with their properties: literal replacement (pandas `Series.str.replace` with
  `regex=False`, acting as Python's `str.replace` on each row), `in` and `str.join`.
- `wrappers.dfy` holds `Option` and `Result`.

Foreign code becomes parameters:
- The query embedding and the stored embeddings are values of an abstract type `V`.
- The scipy distance is a function `distance: (Metric, V, V) -> K`.
- The completion call is a function `complete: Request -> Reply`. `Raised` stands for any exception.
- The tokenizer's count is the row field `nTokens`.
- The text splitter is a function `split: string -> seq<string>`.
- The file listing is the sequence `files`, in listing order.

Behaviour kept exactly as the code has it:
- `"L1"` selects the Chebyshev distance, as `"Linf"` does (questions.py:19).
- Ranking uses pandas' default sort, which is not stable, so ties have no defined order.
- The contributor-page test looks at the raw file name. The login-page test looks at the derived name (embedding/embed.py:34).
- A failed completion yields `""`, not a structured error (questions.py:116-118).
- An unknown metric name raises `KeyError` only when there is at least one embedding to measure. The dictionary lookup sits inside the list comprehension.
- `file[:-4]` of a name shorter than four characters is the empty string, as Python slicing gives.
- As the source reads, the third and fourth replacements of `remove_newlines` (embedding/embed.py:17-18) replace a space with a space. The model keeps them as the constants `SpaceLike1` and `SpaceLike2`. Nothing proved depends on which character they hold.
- A negative `max_len` selects nothing. The budget bound is therefore stated for non-empty selections: if at least one row is taken, the taken rows' total is within `max_len`.

## Model

| member | source | states |
|---|---|---|
| Questions.DistancesFromEmbeddings | questions.py:12-26 | the metric name defaults to `"cosine"`; fails with `KeyError(name)` exactly when there is an embedding and the name is not in the metric table; otherwise returns one distance per embedding, in order, entry i being the named metric applied to the query and embedding i |
| Questions.DistanceEach | questions.py:23-25 | the comprehension yields as many values as embeddings, entry i measuring embedding i |
| Questions.L1IsChebyshev | questions.py:17-22 | "L1" and "Linf" give identical results, since both select Chebyshev |
| Questions.SelectChunks | questions.py:45-58 | the accepted texts are exactly the texts of a prefix of the ranked rows; the prefix total of `n_tokens + 4` is within `max_len` when non-empty; when the walk stops early, adding the next row would exceed `max_len` |
| Questions.GreedyCount | questions.py:45-58 | how many ranked rows the walk accepts, found by spending the budget row by row; never more than the rows given |
| Questions.Context | questions.py:45-61 | the texts of the first `GreedyCount` rows joined by `"\n\n###\n\n"` |
| Questions.Prompt | questions.py:90-98 | the fixed instruction, `"Context: "` and the context, the `---` rule, `"Question: "` and the question, then `"\nAnswer:"` |
| Questions.CompletionRequest | questions.py:102-114 | the chat-completion arguments: the model, the prompt as the one user message, temperature 0, `max_tokens`, top_p 1, both penalties 0, the stop sequence |
| Questions.GreedyCountIsGreedyPrefix | questions.py:49-58 | the row count found by spending the budget row by row is a greedy prefix (fits, and maximal) |
| Questions.GreedyPrefixUnique | questions.py:49-58 | only one prefix length is greedy, so the selection is determined by the ranked rows and the budget |
| Questions.AllSelectedWhenTableFits | questions.py:49-61 | when all rows together fit, every row is selected and the context joins all texts |
| Questions.NearestTooBigGivesEmptyContext | questions.py:51-61 | when the nearest row alone costs more than `max_len`, the context is the empty string |
| Questions.ContextShape | questions.py:51-61 | a non-empty selection costs at most `max_len`; the context is the nearest text followed by each later selected text preceded by the delimiter |
| Questions.TwoOfThreeSelected | questions.py:45-61 | three rows at distances 0.1, 0.3 and 0.5 under a budget that admits only the first two give "C3", the delimiter, "C1" |
| Questions.CreateContext | questions.py:29-61 | over rows ranked by ascending distance, with `max_len` defaulting to 1800, returns the greedy selection joined by `"\n\n###\n\n"`; every selected row is at least as near as every row left out |
| Questions.PromptRoundTrip | questions.py:90-98 | the prompt opens with the fixed instruction, ends with "Answer:", has the template's length, and the context and question can be read back from it |
| Questions.PromptInjective | questions.py:90-98 | prompts with equally long contexts coincide only when their contexts and questions do |
| Questions.AnswerQuestion | questions.py:63-118 | with the source's defaults (model `gpt-4o`, question "What is the meaning of life?", `max_len` 1800, `max_tokens` 150, no stop sequence), sends the prompt built from the greedy context as one user message at temperature 0; returns the completion's content, or "" when the call raises |
| Strings.ReplaceAll | embedding/embed.py:15-18 | literal replacement of every occurrence, leftmost first and without overlap |
| Strings.Contains | embedding/embed.py:34 | the substring test `sub in s` |
| Strings.Join | questions.py:61 | `sep.join(parts)`: empty for no parts, the part itself for one, parts separated by `sep` otherwise |
| Strings.JoinShape | questions.py:61 | `sep.join(parts)` of at least one part is the first part, then the separator and the next part for each later part |
| Strings.JoinLength | questions.py:61 | joining adds exactly one separator between consecutive parts |
| Strings.ReplaceAllLength | embedding/embed.py:15-18 | each occurrence replaced changes the length by the difference between replacement and pattern lengths |
| Strings.ReplaceCharPointwise | embedding/embed.py:15-18 | replacing one character by one character keeps the length and rewrites exactly the matching positions |
| Strings.ReplacePairRemovesAll | embedding/embed.py:16 | replacing a two-character pattern by a character that occurs in neither of its positions leaves no occurrence behind |
| Embed.RemoveNewlines | embedding/embed.py:14-19 | the four literal replacements in source order: newline, backslash-`n`, then the two space-like characters, each by a space |
| Embed.RemoveNewlinesNoNewline | embedding/embed.py:14-19 | the result holds no newline character |
| Embed.RemoveNewlinesNoEscapedNewline | embedding/embed.py:14-19 | the result holds no backslash followed by `n` |
| Embed.RemoveNewlinesLength | embedding/embed.py:14-19 | the result is shorter than the input by exactly the number of backslash-`n` pairs in the input, and never longer |
| Embed.DeriveName | embedding/embed.py:31 | the name is the file name minus its last four characters (empty when shorter), with every `_` turned into `/`, so it holds no `_` |
| Embed.Skipped | embedding/embed.py:34 | a file is skipped when its derived name contains `user/fxa/login` or its raw name contains `contributors.txt` |
| Embed.KeptDocumentsConcat | embedding/embed.py:26-39 | filtering a concatenated listing filters each part and keeps their order |
| Embed.KeptDocumentsSound | embedding/embed.py:34-39 | every kept document is the derived name and content of some listed file that is not skipped |
| Embed.KeptDocumentsComplete | embedding/embed.py:34-39 | every listed file that is not skipped yields a kept document |
| Embed.KeptDocumentsNames | embedding/embed.py:31-36 | no kept name contains `user/fxa/login` or `_` |
| Embed.CollectDocuments | embedding/embed.py:26-39 | the loop returns exactly the documents of the files that are not skipped, in listing order |
| Embed.Titled | embedding/embed.py:47 | the derived name, `". "`, then the text after `remove_newlines` |
| Embed.TitledShape | embedding/embed.py:47 | a titled text starts with the title and ". ", has no newline unless the title has one, and is at most the title, 2 and the text long |
| Embed.TitleAll | embedding/embed.py:47 | the column is titled row for row, keeping its length |
| Embed.Contribution | embedding/embed.py:73-82 | what one row adds to `shortened`: nothing for a missing text, the splitter's pieces above 1000 tokens, the text itself otherwise |
| Embed.ShortenedConcat | embedding/embed.py:70-85 | routing a concatenation of rows routes each part, in order |
| Embed.RowContributionInPlace | embedding/embed.py:70-85 | row i's contribution (nothing for a missing text, the text if at most 1000 tokens, the splitter's pieces otherwise) sits in `shortened` right after the earlier rows' contributions |
| Embed.ShortenedLength | embedding/embed.py:70-85 | the chunk count is the rows kept whole plus the splitter's pieces over the oversized rows |
| Embed.SmallAndLargeDocument | embedding/embed.py:70-85 | a 50-token and a 1200-token document split into at least two pieces give at least three chunks |
| Embed.Shorten | embedding/embed.py:70-85 | the loop builds exactly the in-order concatenation of the rows' contributions |

## Left out

- OpenAI calls (embedding/embed.py:93, questions.py:35-36, 102-114) are not modelled. The completion is the function `complete`. The query side uses a different embedding model from the indexing side; that mismatch lies outside the model.
- Embedding the question and computing the `distances` column (questions.py:35-43) are not modelled inside `CreateContext` and `AnswerQuestion`. Those take rows already carrying their distances. Only `DistancesFromEmbeddings` takes a query embedding.
- Questions.AnswerQuestion: an exception from the question's embedding call is not modelled. `create_context` runs before the `try` (questions.py:75-79), so such a failure makes `answer_question` raise rather than return `""`.
- Floating-point distances are not modelled. The scipy cosine, Euclidean and Chebyshev functions are the opaque parameter `distance`. Row distances are `real` keys used only for ordering.
- Sorting by distance (questions.py:49) is not modelled. `CreateContext` and `AnswerQuestion` take rows already in ascending distance order, stated as their precondition. Tie order is not modelled, because pandas' default sort is not stable.
- tiktoken (embedding/embed.py:52, 59, 89) is not modelled. Token counts arrive as the `nTokens` field.
- The text splitter (embedding/embed.py:65-68, 78) is not modelled. It is the parameter `split`, and nothing is claimed about its pieces.
- The rebuilt table after routing is not modelled: re-counting tokens and embedding every chunk (embedding/embed.py:87-98).
- CSV writes and reads, `os.listdir`, file reads, `print` and the `debug` output of `answer_question` are I/O and are not modelled.
- After reading the CSV back, pandas would turn an empty text into NaN rather than `None`. The model follows the source's `is None` test with an `Option` text.
- `main.py` is not part of this model. It is an asynchronous chat-bot front end with a shared message list and a network completion call.
- Embed.RemoveNewlines: the replacements are taken as literal, which is the pandas 2.x default (`regex=False`). Under pandas 1.x the default was `regex=True`. Then the pattern `'\\n'` would match a newline character instead of backslash-`n`, and `RemoveNewlinesNoEscapedNewline` would not describe the program.
- Questions.AnswerQuestion: `print(prompt)` sits inside the `try` (questions.py:100) and is not modelled. If printing raised, the source would return `""` without calling the completion service; the model always calls `complete`.
- Questions.AnswerQuestion: a completion whose message content is `None` is not modelled. `Reply.Completed` always carries a string.
