/**
 * `hvp_get_file_paths()`: turns the library-dependency rows of one content
 * instance into the ordered lists of preloaded script and style URLs.
 */
module AssetPaths {
  import opened SeqFacts
  import opened PhpStrings

  /** The descriptor passed to H5P core's `libraryToString()`. */
  datatype LibraryData = LibraryData(machineName: string, majorVersion: string, minorVersion: string)

  /** One row of the dependency query, in the order the query returns it.
      All columns are strings as the database layer delivers them; a NULL
      column is represented by "" (PHP's `empty()` and `!` treat both alike). */
  datatype LibraryRow = LibraryRow(
    machineName: string,
    majorVersion: string,
    minorVersion: string,
    preloadedCss: string,
    preloadedJs: string,
    dropCss: string)

  /** The two result lists; both always exist, possibly empty. */
  datatype FilePaths = FilePaths(preloadedJs: seq<string>, preloadedCss: seq<string>)

  /** Which of the two lists is meant. */
  datatype AssetKind = Scripts | Styles

  /** The base path of the plugin's file area. */
  const FilesPath := "/mod/hvp/files"

  /** H5P core's library naming function, supplied by the caller. */
  type LibraryNamer = LibraryData -> string

  function DataOf(row: LibraryRow): LibraryData {
    LibraryData(row.machineName, row.majorVersion, row.minorVersion)
  }

  /** The comma-separated column that feeds the list of `kind`. */
  function Field(row: LibraryRow, kind: AssetKind): string {
    match kind
    case Scripts => row.preloadedJs
    case Styles => row.preloadedCss
  }

  /** Whether a row adds anything to the list of `kind`: its column must be
      non-empty in PHP's sense and, for styles, `drop_css` must be falsy. */
  predicate Contributes(row: LibraryRow, kind: AssetKind) {
    match kind
    case Scripts => !IsEmpty(row.preloadedJs)
    case Styles => !IsEmpty(row.preloadedCss) && !IsTruthy(row.dropCss)
  }

  /** The URL of a file of a library, given the file's trimmed name. */
  function AssetUrl(libraryName: string, path: string): string {
    FilesPath + "/libraries/" + libraryName + "/" + path
  }

  /** Each piece of a list with `trim()` applied, in order. */
  function TrimAll(pieces: seq<string>): (r: seq<string>)
    ensures |r| == |pieces|
  {
    if pieces == [] then []
    else TrimAll(pieces[..|pieces| - 1]) + [Trim(pieces[|pieces| - 1])]
  }

  /** The trimmed piece at each position is the piece at that position,
      trimmed. */
  lemma {:induction false} TrimAllAt(pieces: seq<string>, k: nat)
    requires k < |pieces|
    ensures TrimAll(pieces)[k] == Trim(pieces[k])
  {
    var init := pieces[..|pieces| - 1];
    if k < |init| {
      TrimAllAt(init, k);
      assert init[k] == pieces[k];
    }
  }

  /** The URLs of a list of trimmed file names of one library, in order. */
  function EntryUrls(libraryName: string, paths: seq<string>): (urls: seq<string>)
    ensures |urls| == |paths|
  {
    if paths == [] then []
    else EntryUrls(libraryName, paths[..|paths| - 1]) + [AssetUrl(libraryName, paths[|paths| - 1])]
  }

  /** The URL at each position is the URL of the entry at that position. */
  lemma {:induction false} EntryUrlAt(libraryName: string, paths: seq<string>, k: nat)
    requires k < |paths|
    ensures EntryUrls(libraryName, paths)[k] == AssetUrl(libraryName, paths[k])
  {
    var init := paths[..|paths| - 1];
    if k < |init| {
      EntryUrlAt(libraryName, init, k);
      assert init[k] == paths[k];
    }
  }

  /** One more file name adds its URL at the end. */
  lemma EntryUrlsSnoc(libraryName: string, paths: seq<string>, path: string)
    ensures EntryUrls(libraryName, paths + [path]) == EntryUrls(libraryName, paths) + [AssetUrl(libraryName, path)]
  {
    assert (paths + [path])[..|paths|] == paths;
  }

  /** What one row adds to the list of `kind`. */
  function RowUrls(name: LibraryNamer, row: LibraryRow, kind: AssetKind): seq<string> {
    if Contributes(row, kind) then EntryUrls(name(DataOf(row)), TrimAll(Explode(',', Field(row, kind))))
    else []
  }

  /** The list of `kind` for a sequence of rows: the rows' contributions in
      row order. */
  function Preloaded(name: LibraryNamer, rows: seq<LibraryRow>, kind: AssetKind): seq<string> {
    if rows == [] then []
    else Preloaded(name, rows[..|rows| - 1], kind) + RowUrls(name, rows[|rows| - 1], kind)
  }

  /** What `hvp_get_file_paths()` returns for the given rows. */
  function FilePathsOf(name: LibraryNamer, rows: seq<LibraryRow>): FilePaths {
    FilePaths(Preloaded(name, rows, Scripts), Preloaded(name, rows, Styles))
  }

  /** The list of `kind` grows row by row. */
  lemma PreloadedStep(name: LibraryNamer, rows: seq<LibraryRow>, i: nat, kind: AssetKind)
    requires i < |rows|
    ensures Preloaded(name, rows[..i + 1], kind) == Preloaded(name, rows[..i], kind) + RowUrls(name, rows[i], kind)
  {
    assert rows[..i + 1][..i] == rows[..i];
  }

  /** Rows processed one after the other: the list for `a + b` is the
      list for `a` followed by the list for `b`. */
  lemma {:induction false} PreloadedAppend(name: LibraryNamer, a: seq<LibraryRow>, b: seq<LibraryRow>, kind: AssetKind)
    ensures Preloaded(name, a + b, kind) == Preloaded(name, a, kind) + Preloaded(name, b, kind)
  {
    if b == [] {
      assert a + b == a;
    } else {
      var b', last := b[..|b| - 1], b[|b| - 1];
      AppendSnoc(a, b);
      PreloadedAppend(name, a, b', kind);
      AppendAssoc(Preloaded(name, a, kind), Preloaded(name, b', kind), RowUrls(name, last, kind));
    }
  }

  /** A list over a single row is that row's contribution. */
  lemma PreloadedOne(name: LibraryNamer, row: LibraryRow, kind: AssetKind)
    ensures Preloaded(name, [row], kind) == RowUrls(name, row, kind)
  {
    assert [row][..0] == [];
  }

  /** A single row contributes one URL per comma-separated piece of its
      column, in split order, each the library's directory followed by the
      trimmed piece; or nothing when it does not contribute. */
  lemma SingleRow(name: LibraryNamer, row: LibraryRow, kind: AssetKind)
    ensures var urls, pieces := Preloaded(name, [row], kind), Explode(',', Field(row, kind));
      && (Contributes(row, kind) ==>
            && |urls| == |pieces|
            && forall k :: 0 <= k < |pieces| ==>
                 urls[k] == FilesPath + "/libraries/" + name(DataOf(row)) + "/" + Trim(pieces[k]))
      && (!Contributes(row, kind) ==> urls == [])
  {
    PreloadedOne(name, row, kind);
    if Contributes(row, kind) {
      var pieces := Explode(',', Field(row, kind));
      forall k | 0 <= k < |pieces|
        ensures RowUrls(name, row, kind)[k] == FilesPath + "/libraries/" + name(DataOf(row)) + "/" + Trim(pieces[k])
      {
        RowUrlAt(name, row, kind, k);
      }
    }
  }

  /** The URL a contributing row adds for its `k`-th piece. */
  lemma RowUrlAt(name: LibraryNamer, row: LibraryRow, kind: AssetKind, k: nat)
    requires Contributes(row, kind)
    requires k < |Explode(',', Field(row, kind))|
    ensures var pieces := Explode(',', Field(row, kind));
      RowUrls(name, row, kind)[k] == FilesPath + "/libraries/" + name(DataOf(row)) + "/" + Trim(pieces[k])
  {
    var pieces := Explode(',', Field(row, kind));
    EntryUrlAt(name(DataOf(row)), TrimAll(pieces), k);
    TrimAllAt(pieces, k);
  }

  /** A middle row's contribution sits between those of the rows before
      and after it. */
  lemma PreloadedSplit(name: LibraryNamer, pre: seq<LibraryRow>, row: LibraryRow, post: seq<LibraryRow>, kind: AssetKind)
    ensures Preloaded(name, pre + [row] + post, kind)
         == Preloaded(name, pre, kind) + RowUrls(name, row, kind) + Preloaded(name, post, kind)
    ensures Preloaded(name, pre + post, kind) == Preloaded(name, pre, kind) + Preloaded(name, post, kind)
  {
    PreloadedAppend(name, pre + [row], post, kind);
    PreloadedAppend(name, pre, [row], kind);
    PreloadedAppend(name, pre, post, kind);
    PreloadedOne(name, row, kind);
  }

  /** How many URLs one row contributes: one more than the number of commas
      in its column, or none. */
  function EntryCount(row: LibraryRow, kind: AssetKind): nat {
    if Contributes(row, kind) then Occurrences(Field(row, kind), ',') + 1 else 0
  }

  /** The sum of `EntryCount` over the rows. */
  function TotalEntries(rows: seq<LibraryRow>, kind: AssetKind): nat {
    if rows == [] then 0
    else TotalEntries(rows[..|rows| - 1], kind) + EntryCount(rows[|rows| - 1], kind)
  }

  /** No deduplication and no filtering of empty pieces: the length of each
      list is the sum, over contributing rows, of commas plus one. */
  lemma {:induction false} PreloadedLength(name: LibraryNamer, rows: seq<LibraryRow>, kind: AssetKind)
    ensures |Preloaded(name, rows, kind)| == TotalEntries(rows, kind)
  {
    if rows != [] {
      PreloadedLength(name, rows[..|rows| - 1], kind);
    }
  }

  /** A row whose column is empty in PHP's sense ("" or "0") contributes
      nothing to that list, wherever it stands. */
  lemma EmptyFieldContributesNothing(
    name: LibraryNamer, pre: seq<LibraryRow>, row: LibraryRow, post: seq<LibraryRow>, kind: AssetKind)
    requires IsEmpty(Field(row, kind))
    ensures Preloaded(name, pre + [row] + post, kind) == Preloaded(name, pre + post, kind)
  {
    PreloadedSplit(name, pre, row, post, kind);
    assert RowUrls(name, row, kind) == [];
    assert Preloaded(name, pre, kind) + [] == Preloaded(name, pre, kind);
  }

  /** A row with a truthy `drop_css` contributes no style, but its scripts
      are emitted exactly as for any other row. */
  lemma DropCssKeepsScripts(
    name: LibraryNamer, pre: seq<LibraryRow>, row: LibraryRow, post: seq<LibraryRow>)
    requires IsTruthy(row.dropCss)
    ensures Preloaded(name, pre + [row] + post, Styles) == Preloaded(name, pre + post, Styles)
    ensures Preloaded(name, pre + [row] + post, Scripts)
         == Preloaded(name, pre, Scripts) + Preloaded(name, [row], Scripts) + Preloaded(name, post, Scripts)
    ensures !IsEmpty(row.preloadedJs) ==>
              |Preloaded(name, [row], Scripts)| == Occurrences(row.preloadedJs, ',') + 1
  {
    PreloadedSplit(name, pre, row, post, Styles);
    assert RowUrls(name, row, Styles) == [];
    assert Preloaded(name, pre, Styles) + [] == Preloaded(name, pre, Styles);
    PreloadedSplit(name, pre, row, post, Scripts);
    PreloadedOne(name, row, Scripts);
  }

  /** Two rows naming the same files of the same library produce every URL
      twice: the second row's URLs repeat the first row's. */
  lemma NoDeduplication(name: LibraryNamer, first: LibraryRow, second: LibraryRow, kind: AssetKind)
    requires Contributes(first, kind) && Contributes(second, kind)
    requires name(DataOf(first)) == name(DataOf(second))
    requires Field(first, kind) == Field(second, kind)
    ensures var urls, n := Preloaded(name, [first, second], kind), EntryCount(first, kind);
      && |urls| == 2 * n
      && forall k :: 0 <= k < n ==> urls[k] == urls[n + k]
  {
    var r := RowUrls(name, first, kind);
    assert RowUrls(name, second, kind) == r;
    PreloadedAppend(name, [first], [second], kind);
    assert [first, second] == [first] + [second];
    PreloadedOne(name, first, kind);
    PreloadedOne(name, second, kind);
    assert |r| == EntryCount(first, kind);
    DoubledHalves(r);
  }

  /** A sequence followed by itself repeats at the half-way point. */
  lemma DoubledHalves<T>(r: seq<T>)
    ensures |r + r| == 2 * |r|
    ensures forall k :: 0 <= k < |r| ==> (r + r)[k] == (r + r)[|r| + k]
  {
  }

  /** Every URL of a list comes from a contributing row and one of the
      pieces of its column, trimmed. */
  lemma {:induction false} PreloadedOrigin(name: LibraryNamer, rows: seq<LibraryRow>, kind: AssetKind, url: string)
    requires url in Preloaded(name, rows, kind)
    ensures exists row, piece :: row in rows && Contributes(row, kind)
              && piece in Explode(',', Field(row, kind)) && url == AssetUrl(name(DataOf(row)), Trim(piece))
  {
    var init, last := rows[..|rows| - 1], rows[|rows| - 1];
    if url in Preloaded(name, init, kind) {
      PreloadedOrigin(name, init, kind, url);
      var row, piece :| row in init && Contributes(row, kind)
              && piece in Explode(',', Field(row, kind)) && url == AssetUrl(name(DataOf(row)), Trim(piece));
      assert row in rows;
    } else {
      var urls := RowUrls(name, last, kind);
      var pieces := Explode(',', Field(last, kind));
      var k :| 0 <= k < |urls| && urls[k] == url;
      EntryUrlAt(name(DataOf(last)), TrimAll(pieces), k);
      TrimAllAt(pieces, k);
      assert pieces[k] in pieces;
      assert last in rows;
    }
  }

  /** A file name as it may appear in a list: no comma, and nothing that
      `trim()` would strip at either end. */
  predicate IsPlainEntry(f: string) {
    ',' !in f && f != [] && HasNoOuterTrimmable(f)
  }

  /** The URLs of a two-entry list. */
  lemma EntryUrlsOfTwo(libraryName: string, e1: string, e2: string)
    ensures EntryUrls(libraryName, [e1, e2]) == [AssetUrl(libraryName, e1), AssetUrl(libraryName, e2)]
  {
    assert [e1, e2][..1] == [e1];
    assert [e1][..0] == [];
  }

  /** Trimming a two-piece list trims each piece. */
  lemma TrimAllOfTwo(p1: string, p2: string)
    ensures TrimAll([p1, p2]) == [Trim(p1), Trim(p2)]
  {
    assert [p1, p2][..1] == [p1];
    assert [p1][..0] == [];
  }

  /** "f1, f2" splits at its comma into "f1" and " f2". */
  lemma ExplodeTwo(f1: string, f2: string)
    requires IsPlainEntry(f1) && IsPlainEntry(f2)
    ensures Explode(',', f1 + ", " + f2) == [f1, [' '] + f2]
  {
    var second := [' '] + f2;
    assert f1 + ", " + f2 == f1 + [','] + second;
    assert ',' !in second;
    ExplodeWithoutSeparator(',', f1);
    ExplodeLastPiece(',', f1, second);
  }

  /** Trimming a plain entry, with or without one leading blank, gives the
      entry. */
  lemma TrimPlain(f: string)
    requires IsPlainEntry(f)
    ensures Trim(f) == f && Trim([' '] + f) == f
  {
    TrimExact([], f, []);
    assert [] + f + [] == f;
    assert AllTrimmable([' ']);
    TrimExact([' '], f, []);
    assert [' '] + f + [] == [' '] + f;
  }

  /** A list written "f1, f2" (comma, blank, second name) yields the two
      URLs, the blank before the second name trimmed away. This is the shape
      of a dependency preloading "a.js, b.js". */
  lemma TwoEntryList(name: LibraryNamer, row: LibraryRow, kind: AssetKind, f1: string, f2: string)
    requires Contributes(row, kind)
    requires IsPlainEntry(f1) && IsPlainEntry(f2)
    requires Field(row, kind) == f1 + ", " + f2
    ensures var dir := FilesPath + "/libraries/" + name(DataOf(row)) + "/";
      Preloaded(name, [row], kind) == [dir + f1, dir + f2]
  {
    var n := name(DataOf(row));
    var second := [' '] + f2;
    ExplodeTwo(f1, f2);
    PreloadedOne(name, row, kind);
    TrimPlain(f1);
    TrimPlain(f2);
    TrimAllOfTwo(f1, second);
    assert Preloaded(name, [row], kind) == EntryUrls(n, [f1, f2]);
    EntryUrlsOfTwo(n, f1, f2);
  }

  /** Empty pieces are not filtered: a trailing comma, as in "a.js,", yields
      a second URL that is the library directory itself, ending in "/". */
  lemma TrailingCommaKeepsEmptyPiece(name: LibraryNamer, row: LibraryRow, kind: AssetKind, f: string)
    requires Contributes(row, kind)
    requires IsPlainEntry(f)
    requires Field(row, kind) == f + ","
    ensures var dir := FilesPath + "/libraries/" + name(DataOf(row)) + "/";
      Preloaded(name, [row], kind) == [dir + f, dir]
  {
    var n := name(DataOf(row));
    ExplodeTrailingComma(f);
    PreloadedOne(name, row, kind);
    TrimPlain(f);
    assert Trim([]) == [];
    TrimAllOfTwo(f, []);
    assert Preloaded(name, [row], kind) == EntryUrls(n, [f, []]);
    EntryUrlsOfTwo(n, f, []);
    var dir := FilesPath + "/libraries/" + n + "/";
    assert AssetUrl(n, []) == dir + [] == dir;
  }

  /** "f," splits into "f" and an empty piece. */
  lemma ExplodeTrailingComma(f: string)
    requires IsPlainEntry(f)
    ensures Explode(',', f + ",") == [f, []]
  {
    assert f + "," == f + [','] + [];
    ExplodeWithoutSeparator(',', f);
    ExplodeLastPiece(',', f, []);
  }

  /** The inner `foreach` of `hvp_get_file_paths()`: appends the URL of
      every entry, trimmed, in order, to `urls`. */
  method AppendEntryUrls(urls: seq<string>, libraryName: string, entries: seq<string>)
    returns (result: seq<string>)
    ensures result == urls + EntryUrls(libraryName, TrimAll(entries))
  {
    result := urls;
    for j := 0 to |entries|
      invariant result == urls + EntryUrls(libraryName, TrimAll(entries[..j]))
    {
      var path := Trim(entries[j]);
      assert entries[..j + 1][..j] == entries[..j];
      assert TrimAll(entries[..j + 1]) == TrimAll(entries[..j]) + [path];
      EntryUrlsSnoc(libraryName, TrimAll(entries[..j]), path);
      AppendAssoc(urls, EntryUrls(libraryName, TrimAll(entries[..j])), [AssetUrl(libraryName, path)]);
      result := result + [AssetUrl(libraryName, path)];
    }
    assert entries[..|entries|] == entries;
  }

  /** `hvp_get_file_paths($hvp)` with the query result `rows` and H5P core's
      `libraryToString` as `libraryToString`. */
  method GetFilePaths(rows: seq<LibraryRow>, libraryToString: LibraryNamer) returns (paths: FilePaths)
    ensures paths == FilePathsOf(libraryToString, rows)
    ensures rows == [] ==> paths == FilePaths([], [])
  {
    var js: seq<string> := [];
    var css: seq<string> := [];
    for i := 0 to |rows|
      invariant js == Preloaded(libraryToString, rows[..i], Scripts)
      invariant css == Preloaded(libraryToString, rows[..i], Styles)
    {
      var library := rows[i];
      var libraryName := libraryToString(DataOf(library));
      if !IsEmpty(library.preloadedJs) {
        js := AppendEntryUrls(js, libraryName, Explode(',', library.preloadedJs));
      }
      if !IsEmpty(library.preloadedCss) && !IsTruthy(library.dropCss) {
        css := AppendEntryUrls(css, libraryName, Explode(',', library.preloadedCss));
      }
      PreloadedStep(libraryToString, rows, i, Scripts);
      PreloadedStep(libraryToString, rows, i, Styles);
    }
    assert rows[..|rows|] == rows;
    paths := FilePaths(js, css);
  }
}
