/**
 * embedding/embed.py: the corpus-preparation rules around the tokenizer and
 * the text splitter. File listing, file reading, the token counter and the
 * splitter are inputs (`files`, `nTokens`, `split`); CSV storage and the
 * embedding calls are not modelled.
 */
module Embed {
  import opened Wrappers
  import opened Strings

  // ----------------------------------------------------------- remove_newlines

  /**
   * The characters replaced by the third and fourth replacement of
   * `remove_newlines`. As the source reads, both are the plain space; no lemma
   * below depends on which character they are.
   */
  const SpaceLike1: char := ' '
  const SpaceLike2: char := ' '

  /** `remove_newlines` on one text: four `str.replace` calls, in source order. */
  function RemoveNewlines(s: string): string
  {
    var s1 := ReplaceAll(s, "\n", " ");
    var s2 := ReplaceAll(s1, "\\n", " ");
    var s3 := ReplaceAll(s2, [SpaceLike1], " ");
    ReplaceAll(s3, [SpaceLike2], " ")
  }

  /** A position-wise rewrite to ' ' cannot create a newline. */
  lemma SpacingKeepsNoNewline(s: string, c: char)
    requires '\n' !in s
    ensures '\n' !in ReplaceAll(s, [c], " ")
  {
    ReplaceCharPointwise(s, c, ' ');
    assert " " == [' '];
  }

  /** After `remove_newlines` the text holds no newline character. */
  lemma RemoveNewlinesNoNewline(s: string)
    ensures '\n' !in RemoveNewlines(s)
  {
    var s1 := ReplaceAll(s, "\n", " ");
    ReplaceCharPointwise(s, '\n', ' ');
    assert "\n" == ['\n'] && " " == [' '];
    var s2 := ReplaceAll(s1, "\\n", " ");
    ReplaceAllKeepsAbsent(s1, "\\n", " ", '\n');
    var s3 := ReplaceAll(s2, [SpaceLike1], " ");
    SpacingKeepsNoNewline(s2, SpaceLike1);
    SpacingKeepsNoNewline(s3, SpaceLike2);
  }

  /** A position-wise rewrite to ' ' cannot create a backslash-n pair. */
  lemma SpacingKeepsNoEscape(s: string, c: char)
    requires !Contains(s, "\\n")
    ensures !Contains(ReplaceAll(s, [c], " "), "\\n")
  {
    ReplaceCharPointwise(s, c, ' ');
    assert " " == [' '];
    ContainsPointwise(s, ReplaceAll(s, [c], " "), "\\n", ' ');
  }

  /** After `remove_newlines` the two characters backslash, `n` never occur together. */
  lemma RemoveNewlinesNoEscapedNewline(s: string)
    ensures !Contains(RemoveNewlines(s), "\\n")
  {
    var s1 := ReplaceAll(s, "\n", " ");
    var s2 := ReplaceAll(s1, "\\n", " ");
    ReplacePairRemovesAll(s1, "\\n", " ");
    var s3 := ReplaceAll(s2, [SpaceLike1], " ");
    SpacingKeepsNoEscape(s2, SpaceLike1);
    SpacingKeepsNoEscape(s3, SpaceLike2);
  }

  /**
   * `remove_newlines` shortens the text by one character per backslash-n pair
   * of the input and otherwise keeps its length; it never lengthens it.
   */
  lemma RemoveNewlinesLength(s: string)
    ensures |RemoveNewlines(s)| == |s| - Occurrences(s, "\\n")
    ensures |RemoveNewlines(s)| <= |s|
  {
    var s1 := ReplaceAll(s, "\n", " ");
    ReplaceCharPointwise(s, '\n', ' ');
    assert "\n" == ['\n'] && " " == [' '];
    OccurrencesPointwise(s, s1, "\\n");
    var s2 := ReplaceAll(s1, "\\n", " ");
    ReplaceAllLength(s1, "\\n", " ");
    var s3 := ReplaceAll(s2, [SpaceLike1], " ");
    ReplaceCharPointwise(s2, SpaceLike1, ' ');
    ReplaceCharPointwise(s3, SpaceLike2, ' ');
  }

  // ------------------------------------------------------ listing the corpus

  /** A file of the scraped directory: its name and its content. */
  datatype SourceFile = SourceFile(name: string, content: string)

  /** A `(fname, text)` pair of the `texts` list. */
  datatype Document = Document(fname: string, text: string)

  /**
   * `file[:-4].replace("_", "/")`: drop the last four characters (all of a
   * shorter name), then restore slashes.
   */
  function DeriveName(file: string): (name: string)
    ensures |name| == if |file| >= 4 then |file| - 4 else 0
    ensures forall i :: 0 <= i < |name| ==> name[i] == if file[i] == '_' then '/' else file[i]
    ensures '_' !in name
  {
    var stem := if |file| >= 4 then file[..|file| - 4] else "";
    ReplaceCharPointwise(stem, '_', '/');
    assert "_" == ['_'] && "/" == ['/'];
    ReplaceAll(stem, "_", "/")
  }

  /** The skip test: login pages by derived name, contributor pages by raw file name. */
  predicate Skipped(file: string)
  {
    Contains(DeriveName(file), "user/fxa/login") || Contains(file, "contributors.txt")
  }

  function ToDocument(f: SourceFile): Document
  {
    Document(DeriveName(f.name), f.content)
  }

  /** The documents the listing loop keeps, in listing order. */
  function KeptDocuments(files: seq<SourceFile>): seq<Document>
    decreases |files|
  {
    if files == [] then []
    else
      var last := files[|files| - 1];
      KeptDocuments(files[..|files| - 1]) + (if Skipped(last.name) then [] else [ToDocument(last)])
  }

  /** Filtering a concatenated listing filters each part and keeps their order. */
  lemma {:induction false} KeptDocumentsConcat(a: seq<SourceFile>, b: seq<SourceFile>)
    ensures KeptDocuments(a + b) == KeptDocuments(a) + KeptDocuments(b)
    decreases |b|
  {
    if b == [] {
      assert a + b == a;
    } else {
      var n := |b| - 1;
      assert (a + b)[..|a + b| - 1] == a + b[..n];
      KeptDocumentsConcat(a, b[..n]);
    }
  }

  /** Every kept document comes from a listed file that is not skipped. */
  lemma {:induction false} KeptDocumentsSound(files: seq<SourceFile>, k: nat)
    requires k < |KeptDocuments(files)|
    ensures exists j :: 0 <= j < |files| && !Skipped(files[j].name) && KeptDocuments(files)[k] == ToDocument(files[j])
    decreases |files|
  {
    var init := files[..|files| - 1];
    var last := files[|files| - 1];
    if k < |KeptDocuments(init)| {
      KeptDocumentsSound(init, k);
      var j :| 0 <= j < |init| && !Skipped(init[j].name) && KeptDocuments(init)[k] == ToDocument(init[j]);
      assert files[j] == init[j];
    } else {
      assert KeptDocuments(files)[k] == ToDocument(last);
    }
  }

  /** Every listed file that is not skipped is kept. */
  lemma {:induction false} KeptDocumentsComplete(files: seq<SourceFile>, j: nat)
    requires j < |files| && !Skipped(files[j].name)
    ensures ToDocument(files[j]) in KeptDocuments(files)
    decreases |files|
  {
    var init := files[..|files| - 1];
    if j < |init| {
      assert files[j] == init[j];
      KeptDocumentsComplete(init, j);
    }
  }

  /** No kept document is a login page, and every kept name has its slashes restored. */
  lemma KeptDocumentsNames(files: seq<SourceFile>, k: nat)
    requires k < |KeptDocuments(files)|
    ensures !Contains(KeptDocuments(files)[k].fname, "user/fxa/login")
    ensures '_' !in KeptDocuments(files)[k].fname
  {
    KeptDocumentsSound(files, k);
  }

  /** The listing loop: derive each file's name, skip login and contributor pages, keep the rest in order. */
  method CollectDocuments(files: seq<SourceFile>) returns (texts: seq<Document>)
    ensures texts == KeptDocuments(files)
  {
    texts := [];
    for i := 0 to |files|
      invariant texts == KeptDocuments(files[..i])
    {
      assert files[..i + 1][..i] == files[..i];
      var file := files[i].name;
      var filename := DeriveName(file);
      if Contains(filename, "user/fxa/login") || Contains(file, "contributors.txt") {
        continue;
      }
      texts := texts + [Document(filename, files[i].content)];
    }
    assert files[..|files|] == files;
  }

  // ---------------------------------------------------------------- titling

  /** `df.fname + ". " + remove_newlines(df.text)` for one document. */
  function Titled(d: Document): string
  {
    d.fname + ". " + RemoveNewlines(d.text)
  }

  /**
   * A titled text opens with the title and ". ", carries no newline unless the
   * title does, and is at most the title, two characters and the text long.
   */
  lemma TitledShape(d: Document)
    ensures d.fname + ". " <= Titled(d)
    ensures '\n' !in d.fname ==> '\n' !in Titled(d)
    ensures |Titled(d)| <= |d.fname| + 2 + |d.text|
  {
    RemoveNewlinesNoNewline(d.text);
    RemoveNewlinesLength(d.text);
    assert Titled(d) == (d.fname + ". ") + RemoveNewlines(d.text);
  }

  /** Line 47 applied to the whole column, row for row. */
  function TitleAll(docs: seq<Document>): (texts: seq<string>)
    ensures |texts| == |docs|
    ensures forall i :: 0 <= i < |docs| ==> texts[i] == Titled(docs[i])
    decreases |docs|
  {
    if docs == [] then [] else [Titled(docs[0])] + TitleAll(docs[1..])
  }

  // ----------------------------------------------------------------- routing

  /** The splitter's and the routing test's budget. */
  const ChunkSize := 1000

  /** A row of the scraped table: its text (`None` when missing) and its token count. */
  datatype TableRow = TableRow(text: Option<string>, nTokens: nat)

  /** What one row adds to `shortened`. */
  function Contribution(row: TableRow, split: string -> seq<string>): seq<string>
  {
    match row.text
    case None => []
    case Some(t) => if row.nTokens > ChunkSize then split(t) else [t]
  }

  /** `shortened` after a run of rows: their contributions, in row order. */
  function Shortened(rows: seq<TableRow>, split: string -> seq<string>): seq<string>
    decreases |rows|
  {
    if rows == [] then []
    else Shortened(rows[..|rows| - 1], split) + Contribution(rows[|rows| - 1], split)
  }

  /** How many rows are kept whole: present and at most ChunkSize tokens. */
  function KeptWhole(rows: seq<TableRow>): nat
    decreases |rows|
  {
    if rows == [] then 0
    else
      var whole := if rows[0].text.Some? && rows[0].nTokens <= ChunkSize then 1 else 0;
      KeptWhole(rows[1..]) + whole
  }

  /** How many pieces the splitter returns over all oversized rows. */
  function SplitPieces(rows: seq<TableRow>, split: string -> seq<string>): nat
    decreases |rows|
  {
    if rows == [] then 0
    else
      var pieces := if rows[0].text.Some? && rows[0].nTokens > ChunkSize then |split(rows[0].text.value)| else 0;
      SplitPieces(rows[1..], split) + pieces
  }

  /** Routing a concatenation routes each part, in order. */
  lemma {:induction false} ShortenedConcat(a: seq<TableRow>, b: seq<TableRow>, split: string -> seq<string>)
    ensures Shortened(a + b, split) == Shortened(a, split) + Shortened(b, split)
    decreases |b|
  {
    if b == [] {
      assert a + b == a;
    } else {
      var n := |b| - 1;
      assert (a + b)[..|a + b| - 1] == a + b[..n];
      ShortenedConcat(a, b[..n], split);
    }
  }

  /**
   * Row `i`'s contribution sits in `shortened` right after those of the rows
   * before it: nothing for a missing text, the text itself when small enough,
   * the splitter's pieces in order otherwise.
   */
  lemma RowContributionInPlace(rows: seq<TableRow>, split: string -> seq<string>, i: nat)
    requires i < |rows|
    ensures |Shortened(rows[..i], split)| <= |Shortened(rows, split)|
    ensures Shortened(rows, split)[..|Shortened(rows[..i], split)|] == Shortened(rows[..i], split)
    ensures var start := |Shortened(rows[..i], split)|;
      var piece := Contribution(rows[i], split);
      start + |piece| <= |Shortened(rows, split)| &&
      Shortened(rows, split)[start..start + |piece|] == piece
  {
    assert rows == rows[..i] + ([rows[i]] + rows[i + 1..]);
    ShortenedConcat(rows[..i], [rows[i]] + rows[i + 1..], split);
    ShortenedConcat([rows[i]], rows[i + 1..], split);
    assert Shortened([rows[i]], split) == Contribution(rows[i], split);
  }

  /** The number of chunks is the rows kept whole plus all the splitter's pieces. */
  lemma {:induction false} ShortenedLength(rows: seq<TableRow>, split: string -> seq<string>)
    ensures |Shortened(rows, split)| == KeptWhole(rows) + SplitPieces(rows, split)
    decreases |rows|
  {
    if rows != [] {
      ShortenedLength(rows[1..], split);
      assert rows == [rows[0]] + rows[1..];
      ShortenedConcat([rows[0]], rows[1..], split);
      assert Shortened([rows[0]], split) == Contribution(rows[0], split);
    }
  }

  /**
   * A 50-token document and a 1200-token one that the splitter cuts into at
   * least two pieces give at least three chunks.
   */
  lemma SmallAndLargeDocument(a: string, b: string, split: string -> seq<string>)
    requires |split(b)| >= 2
    ensures |Shortened([TableRow(Some(a), 50), TableRow(Some(b), 1200)], split)| >= 3
  {
    ShortenedLength([TableRow(Some(a), 50), TableRow(Some(b), 1200)], split);
  }

  /** The routing loop that builds `shortened`. */
  method Shorten(rows: seq<TableRow>, split: string -> seq<string>) returns (shortened: seq<string>)
    ensures shortened == Shortened(rows, split)
  {
    shortened := [];
    for idx := 0 to |rows|
      invariant shortened == Shortened(rows[..idx], split)
    {
      assert rows[..idx + 1][..idx] == rows[..idx];
      var row := rows[idx];
      if row.text.None? {
        continue;
      }
      if row.nTokens > ChunkSize {
        var chunks := split(row.text.value);
        for j := 0 to |chunks|
          invariant shortened == Shortened(rows[..idx], split) + chunks[..j]
        {
          assert chunks[..j + 1] == chunks[..j] + [chunks[j]];
          shortened := shortened + [chunks[j]];
        }
        assert chunks[..|chunks|] == chunks;
      } else {
        shortened := shortened + [row.text.value];
      }
    }
    assert rows[..|rows|] == rows;
  }
}
