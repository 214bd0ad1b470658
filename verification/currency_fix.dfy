/**
 * The currency-symbol rewriter `batch-fix-currency.py`.
 *
 * `fix_file` takes the text of a TypeScript module that prints prices with a
 * literal pound sign and rewrites it in four steps: it counts the pound signs
 * (and stops when there are none), adds an import of `getCurrencySymbol` after
 * the last import statement, adds a `currencySymbol` declaration to every
 * `export async function` whose body needs one, and replaces every pound sign
 * by `${currencySymbol}`. `main` runs it over a fixed list of files.
 *
 * The file system is a map from path to content; the two regular expressions
 * of the script are written out as scanners.
 */
module CurrencyFix {
  import opened Maybe
  import opened Strings

  const Pound: char := '\U{00A3}'
  const VarName: string := "currencySymbol"
  const HelperName: string := "getCurrencySymbol"
  const UtilsModule: string := "currency-utils"
  /** What every pound sign becomes: a template-literal placeholder. */
  const CurrencyVar: string := "${" + VarName + "}"
  const ImportUp: string := "import { " + HelperName + " } from '../" + UtilsModule + "';\n"
  const ImportHere: string := "import { " + HelperName + " } from './" + UtilsModule + "';\n"
  const TryOpen: string := "\n  try {"
  const DeclInTry: string := "\n    const " + VarName + " = " + HelperName + "(params);"
  const DeclAtStart: string := "\n  const " + VarName + " = " + HelperName + "(params);"
  /** The text whose next occurrence ends a function body. */
  const NextFunction: string := "\nexport async function"
  const NoSymbols: string := "No currency symbols found"
  const ProductDir: string := "/product-operations/"
  const OrderDir: string := "/order-operations/"

  const FilesToFix: seq<string> := [
    "lib/chat/product-operations/stock-operations.ts",
    "lib/chat/order-operations/order-history.ts",
    "lib/chat/order-operations/order-refunds-cancellation.ts",
    "lib/chat/store-operations.ts",
    "lib/chat/analytics-operations.ts",
    "lib/chat/report-operations.ts",
    "lib/chat/woocommerce-tool-formatters.ts"
  ]

  lemma InsertedTextsHaveNoPound()
    ensures Pound !in CurrencyVar && Pound !in ImportUp && Pound !in ImportHere
    ensures Pound !in DeclInTry && Pound !in DeclAtStart
  {
    assert Pound !in VarName && Pound !in HelperName && Pound !in UtilsModule;
  }

  // ---------------------------------------------------------------------------
  // Step 2: the import line

  /**
   * The import to add: modules in the two sub-directories import the helper
   * from the parent directory, all others from their own directory.
   */
  function ImportLine(path: string): (line: string)
    ensures line == ImportUp <==> Contains(path, ProductDir) || Contains(path, OrderDir)
    ensures line == ImportHere <==> !(Contains(path, ProductDir) || Contains(path, OrderDir))
  {
    assert |ImportUp| == |ImportHere| + 1;
    if Contains(path, ProductDir) || Contains(path, OrderDir) then ImportUp else ImportHere
  }

  /**
   * A line (without its newline) matched by the pattern `import.*from.*;\n`:
   * `import`, later a `from` that does not overlap it, and a `;` as the last
   * character. `.` matches anything but a newline, so a match never leaves its line.
   */
  ghost predicate ImportPatternLine(line: string)
  {
    && '\n' !in line
    && |line| > 0 && line[|line| - 1] == ';'
    && exists i: nat, q: nat :: i + 6 <= q && q + 4 < |line| && OccursAt(line, "import", i) && OccursAt(line, "from", q)
  }

  /** The scanner's test for one line: look for `from` after the first `import`. */
  predicate IsImportLine(line: string)
  {
    && |line| > 0 && line[|line| - 1] == ';'
    && var i := Find(line, "import", 0);
       i >= 0 && Find(line[..|line| - 1], "from", i + 6) >= 0
  }

  /** Looking after the first `import` only is enough: a later one leaves less room for `from`. */
  lemma {:induction false} IsImportLineMatchesPattern(line: string)
    requires '\n' !in line
    ensures IsImportLine(line) <==> ImportPatternLine(line)
  {
    if IsImportLine(line) {
      var i := Find(line, "import", 0);
      var body := line[..|line| - 1];
      var q := Find(body, "from", i + 6);
      assert line[q..q + 4] == body[q..q + 4];
      assert OccursAt(line, "import", i) && OccursAt(line, "from", q);
    }
    if ImportPatternLine(line) {
      var i: nat, q: nat :| i + 6 <= q && q + 4 < |line| && OccursAt(line, "import", i) && OccursAt(line, "from", q);
      var first := Find(line, "import", 0);
      assert first >= 0 && first <= i;
      var body := line[..|line| - 1];
      assert body[q..q + 4] == line[q..q + 4];
      assert OccursAt(body, "from", q);
      assert Find(body, "from", first + 6) >= 0;
    }
  }

  /** Start of the line that holds index `k` (or that `k` ends). */
  function LineStart(s: string, k: nat): (j: nat)
    requires k <= |s|
    ensures j <= k && (j == 0 || s[j - 1] == '\n')
    ensures forall i :: j <= i < k ==> s[i] != '\n'
  {
    if k == 0 || s[k - 1] == '\n' then k else LineStart(s, k - 1)
  }

  lemma {:induction false} LineStartOfLine(s: string, start: nat, k: nat)
    requires start <= k <= |s|
    requires start == 0 || s[start - 1] == '\n'
    requires forall i :: start <= i < k ==> s[i] != '\n'
    ensures LineStart(s, k) == start
  {
    if k > start {
      LineStartOfLine(s, start, k - 1);
    }
  }

  /** A match of the import pattern ends at `e` (just after the newline of its line). */
  predicate ImportEndsAt(s: string, e: nat)
  {
    0 < e <= |s| && s[e - 1] == '\n' && IsImportLine(s[LineStart(s, e - 1)..e - 1])
  }

  /** The end of the last import match that ends at or before `k`. */
  function LastImportEnd(s: string, k: nat): (r: Option<nat>)
    requires k <= |s|
    ensures r.Some? ==> 0 < r.value <= k
  {
    if k == 0 then None
    else if ImportEndsAt(s, k) then Some(k)
    else LastImportEnd(s, k - 1)
  }

  /** The result is a match end, and no match ends after it up to `k`. */
  lemma {:induction false} LastImportEndIsLast(s: string, k: nat)
    requires k <= |s|
    ensures var r := LastImportEnd(s, k);
      && (r.Some? ==> ImportEndsAt(s, r.value))
      && forall e :: (if r.Some? then r.value else 0) < e <= k ==> !ImportEndsAt(s, e)
  {
    if k > 0 && !ImportEndsAt(s, k) {
      LastImportEndIsLast(s, k - 1);
    }
  }

  lemma {:induction false} LastImportEndSkips(s: string, a: nat, b: nat)
    requires a <= b <= |s|
    requires forall e :: a < e <= b ==> !ImportEndsAt(s, e)
    ensures LastImportEnd(s, b) == LastImportEnd(s, a)
  {
    if b > a {
      assert !ImportEndsAt(s, b);
      LastImportEndSkips(s, a, b - 1);
    }
  }

  /** The next import match can end only at the newline that ends the line from `start`. */
  lemma LastImportEndNextLine(s: string, start: nat, nl: nat)
    requires start <= nl < |s| && s[nl] == '\n'
    requires start == 0 || s[start - 1] == '\n'
    requires forall i :: start <= i < nl ==> s[i] != '\n'
    ensures LastImportEnd(s, nl + 1) ==
      if IsImportLine(s[start..nl]) then Some(nl + 1) else LastImportEnd(s, start)
  {
    LastImportEndSkips(s, start, nl);
    LineStartOfLine(s, start, nl);
  }

  /** The index of the newline that ends the line from `start`, or the text length. */
  method LineEnd(s: string, start: nat) returns (nl: nat)
    requires start <= |s|
    ensures start <= nl <= |s| && (nl < |s| ==> s[nl] == '\n')
    ensures forall i :: start <= i < nl ==> s[i] != '\n'
  {
    nl := start;
    while nl < |s| && s[nl] != '\n'
      invariant start <= nl <= |s|
      invariant forall i :: start <= i < nl ==> s[i] != '\n'
    {
      nl := nl + 1;
    }
  }

  /**
   * The position right after the last line that matches the import pattern
   * (`imports[-1].end()`), found line by line.
   */
  method FindLastImportEnd(s: string) returns (last: Option<nat>)
    ensures last == LastImportEnd(s, |s|)
  {
    last := None;
    var start := 0;
    while start < |s|
      invariant start <= |s|
      invariant start == 0 || s[start - 1] == '\n'
      invariant last == LastImportEnd(s, start)
      decreases |s| - start
    {
      var nl := LineEnd(s, start);
      if nl == |s| {
        // The last line has no newline, so no match can end on it.
        LastImportEndSkips(s, start, |s|);
        break;
      }
      LastImportEndNextLine(s, start, nl);
      if IsImportLine(s[start..nl]) {
        last := Some(nl + 1);
      }
      start := nl + 1;
    }
  }

  /**
   * The content after step 2: unchanged when it already mentions the helper
   * module or has no import statement, otherwise the import line follows the
   * last import statement.
   */
  function WithImport(content: string, path: string): string
  {
    if Contains(content, UtilsModule) then content
    else match LastImportEnd(content, |content|)
      case None => content
      case Some(e) => content[..e] + ImportLine(path) + content[e..]
  }

  /**
   * The import is added exactly when the file does not mention the utilities
   * module and has an import line, and then right after the last import line.
   */
  lemma WithImportPlacesLine(content: string, path: string)
    ensures var r := WithImport(content, path);
      && (r != content <==> !Contains(content, UtilsModule) && exists e :: ImportEndsAt(content, e))
      && (r != content ==>
            exists e: nat :: && ImportEndsAt(content, e)
                        && (forall e': nat :: ImportEndsAt(content, e') ==> e' <= e)
                        && r == content[..e] + ImportLine(path) + content[e..])
  {
    LastImportEndIsLast(content, |content|);
    if !Contains(content, UtilsModule) {
      match LastImportEnd(content, |content|)
      case None =>
      case Some(e) =>
        assert |WithImport(content, path)| > |content|;
    }
  }

  lemma ImportLineHasNoPound(path: string)
    ensures Pound !in ImportLine(path)
  {
    InsertedTextsHaveNoPound();
  }

  /** The import line holds no pound sign, so adding it keeps the count. */
  lemma WithImportKeepsPounds(content: string, path: string)
    ensures Count(WithImport(content, path), Pound) == Count(content, Pound)
  {
    var r := WithImport(content, path);
    WithImportPlacesLine(content, path);
    if r != content {
      var e: nat :| && ImportEndsAt(content, e)
                    && r == content[..e] + ImportLine(path) + content[e..];
      ImportLineHasNoPound(path);
      CountInsert(content, e, ImportLine(path), Pound);
    }
  }

  // ---------------------------------------------------------------------------
  // Step 3: the per-function declaration

  /**
   * Python's `\s` restricted to ASCII: space, tab, line feed, carriage
   * return, vertical tab, form feed and the four separators U+001C to U+001F.
   */
  predicate IsSpace(c: char)
  {
    c == ' ' || c == '\t' || c == '\n' || c == '\r' || c == '\U{000B}' || c == '\U{000C}'
    || ('\U{001C}' <= c <= '\U{001F}')
  }

  /** Python's `\w` on ASCII text. */
  predicate IsWordChar(c: char)
  {
    ('a' <= c <= 'z') || ('A' <= c <= 'Z') || ('0' <= c <= '9') || c == '_'
  }

  function SkipSpaces(s: string, i: nat): (j: nat)
    requires i <= |s|
    decreases |s| - i
    ensures i <= j <= |s|
    ensures forall k :: i <= k < j ==> IsSpace(s[k])
    ensures j < |s| ==> !IsSpace(s[j])
  {
    if i < |s| && IsSpace(s[i]) then SkipSpaces(s, i + 1) else i
  }

  function SkipWord(s: string, i: nat): (j: nat)
    requires i <= |s|
    decreases |s| - i
    ensures i <= j <= |s|
    ensures forall k :: i <= k < j ==> IsWordChar(s[k])
    ensures j < |s| ==> !IsWordChar(s[j])
  {
    if i < |s| && IsWordChar(s[i]) then SkipWord(s, i + 1) else i
  }

  /**
   * One element of a regular expression made of literal words and greedy
   * runs: a literal, `\s+`, `\w+`, or `[^{]*\{`.
   */
  datatype Element = Literal(word: string) | Spaces | Name | UpToBrace

  /** `export\s+async\s+function\s+\w+[^{]*\{`, element by element. */
  const HeaderPattern: seq<Element> :=
    [Literal("export"), Spaces, Literal("async"), Spaces, Literal("function"), Spaces, Name, UpToBrace]

  /**
   * Where a match of one element that starts at `i` ends, or -1 when none
   * starts there. A `\s+` or `\w+` run needs at least one character.
   */
  function MatchElement(s: string, i: nat, element: Element): (j: int)
    requires i <= |s|
    ensures j == -1 || i <= j <= |s|
    ensures j >= 0 && element == UpToBrace ==> i < j && s[j - 1] == '{'
  {
    match element
    case Literal(w) => if OccursAt(s, w, i) then i + |w| else -1
    case Spaces => var j := SkipSpaces(s, i); if j == i then -1 else j
    case Name => var j := SkipWord(s, i); if j == i then -1 else j
    case UpToBrace =>
      var brace := Find(s, "{", i);
      if brace < 0 then -1
      else
        assert s[brace] == s[brace..brace + 1][0];
        brace + 1
  }

  /** Every character of `s[a..b]` is white space. */
  predicate AllSpaces(s: string, a: nat, b: nat)
  {
    a <= b <= |s| && forall k :: a <= k < b ==> IsSpace(s[k])
  }

  /** Every character of `s[a..b]` is a word character. */
  predicate AllWordChars(s: string, a: nat, b: nat)
  {
    a <= b <= |s| && forall k :: a <= k < b ==> IsWordChar(s[k])
  }

  /** No character of `s[a..b]` is an opening brace. */
  predicate NoBrace(s: string, a: nat, b: nat)
  {
    a <= b <= |s| && forall k :: a <= k < b ==> s[k] != '{'
  }

  /**
   * `s[i..j]` is what a greedy match of `element` takes from `i`: the literal
   * itself, a non-empty run that stops where its class stops, or everything
   * up to and including the next `{`.
   */
  predicate ElementShape(s: string, i: nat, element: Element, j: int)
  {
    match element
    case Literal(w) => j == i + |w| && OccursAt(s, w, i)
    case Spaces => i < j && AllSpaces(s, i, j) && (j < |s| ==> !IsSpace(s[j]))
    case Name => i < j && AllWordChars(s, i, j) && (j < |s| ==> !IsWordChar(s[j]))
    case UpToBrace => i < j && NoBrace(s, i, j - 1) && j <= |s| && s[j - 1] == '{'
  }

  /** `MatchElement` ends exactly where a greedy match of the element ends, and fails when there is none. */
  lemma MatchElementMeans(s: string, i: nat, element: Element, j: int)
    requires i <= |s|
    ensures MatchElement(s, i, element) == j && j >= 0 <==> ElementShape(s, i, element, j)
  {
    match element
    case Literal(w) =>
    case Spaces =>
    case Name =>
    case UpToBrace =>
      var brace := Find(s, "{", i);
      if brace >= 0 {
        assert s[brace] == s[brace..brace + 1][0];
        forall k | i <= k < brace
          ensures s[k] != '{'
        {
          assert s[k..k + 1] == [s[k]];
          assert !OccursAt(s, "{", k);
        }
      }
      if ElementShape(s, i, element, j) {
        assert s[j - 1..j] == "{";
        assert OccursAt(s, "{", j - 1);
        assert brace != -1;
        assert brace == j - 1;
      }
  }

  /**
   * Where a match of `pattern` that starts at `i` ends, or -1 when none starts
   * there. The runs are taken greedily without backtracking. For the header
   * pattern that loses no match: each `\s+` run is followed by a letter it
   * cannot take, and whatever part of the name `\w+` leaves, `[^{]*` takes,
   * so the match still ends at the first `{` after the name.
   */
  function MatchAt(s: string, i: nat, pattern: seq<Element>): (e: int)
    requires i <= |s|
    decreases |s| - i + |pattern|
    ensures e == -1 || i <= e <= |s|
  {
    if pattern == [] then i
    else
      var j := MatchElement(s, i, pattern[0]);
      if j < 0 then -1 else MatchAt(s, j, pattern[1..])
  }

  /** A pattern that ends in `[^{]*\{` matches up to and including a `{`. */
  lemma {:induction false} MatchAtEndsWithBrace(s: string, i: nat, pattern: seq<Element>)
    requires i <= |s| && pattern != [] && pattern[|pattern| - 1] == UpToBrace
    ensures MatchAt(s, i, pattern) >= 0 ==> i < MatchAt(s, i, pattern) && s[MatchAt(s, i, pattern) - 1] == '{'
    decreases |pattern|
  {
    var j := MatchElement(s, i, pattern[0]);
    if j >= 0 {
      var rest := pattern[1..];
      if rest == [] {
        assert pattern[0] == pattern[|pattern| - 1];
        assert MatchAt(s, j, rest) == j;
      } else {
        assert rest[|rest| - 1] == UpToBrace;
        MatchAtEndsWithBrace(s, j, rest);
      }
    }
  }

  /** Where a function header that starts at `p` ends, or -1 when none starts there. */
  function HeaderEnd(s: string, p: nat): (e: int)
    ensures e == -1 || p < e <= |s|
  {
    if p > |s| then -1 else MatchAt(s, p, HeaderPattern)
  }

  /** A header match ends with its opening brace. */
  lemma HeaderEndsWithBrace(s: string, p: nat)
    ensures HeaderEnd(s, p) >= 0 ==> s[HeaderEnd(s, p) - 1] == '{'
  {
    if p <= |s| {
      assert HeaderPattern[|HeaderPattern| - 1] == UpToBrace;
      MatchAtEndsWithBrace(s, p, HeaderPattern);
    }
  }

  /**
   * `s[p..e]` matches `export\s+async\s+function\s+\w+[^{]*\{` with the three
   * space runs ending at `q1`, `q2` and `q3` and the name at `q4`.
   */
  predicate HeaderParts(s: string, p: nat, q1: nat, q2: nat, q3: nat, q4: nat, e: nat)
  {
    OccursAt(s, "export", p) && p + 6 < q1 && AllSpaces(s, p + 6, q1) &&
    OccursAt(s, "async", q1) && q1 + 5 < q2 && AllSpaces(s, q1 + 5, q2) &&
    OccursAt(s, "function", q2) && q2 + 8 < q3 && AllSpaces(s, q2 + 8, q3) &&
    q3 < q4 && AllWordChars(s, q3, q4) &&
    q4 < e <= |s| && NoBrace(s, q4, e - 1) && s[e - 1] == '{'
  }

  /** `s[p..e]` matches the function-header pattern, however its runs are split. */
  ghost predicate HeaderShape(s: string, p: nat, e: int)
  {
    e >= 0 && exists q1: nat, q2: nat, q3: nat, q4: nat :: HeaderParts(s, p, q1, q2, q3, q4, e)
  }

  lemma MatchAtCons(s: string, i: nat, element: Element, rest: seq<Element>)
    requires i <= |s|
    ensures MatchAt(s, i, [element] + rest)
         == var j := MatchElement(s, i, element); if j < 0 then -1 else MatchAt(s, j, rest)
  {
    assert ([element] + rest)[1..] == rest;
  }

  /** After a successful first element, the rest of the pattern matches from where it ended. */
  lemma MatchAtAfter(s: string, i: nat, element: Element, rest: seq<Element>, j: nat)
    requires i <= |s| && MatchElement(s, i, element) == j
    ensures MatchAt(s, i, [element] + rest) == MatchAt(s, j, rest)
  {
    MatchAtCons(s, i, element, rest);
  }

  /** A header the scanner reports has the shape of the pattern. */
  lemma HeaderEndShape(s: string, p: nat)
    requires p <= |s|
    ensures HeaderEnd(s, p) >= 0 ==> HeaderShape(s, p, HeaderEnd(s, p))
  {
    var r8: seq<Element> := [];
    var r7 := [UpToBrace] + r8;
    var r6 := [Name] + r7;
    var r5 := [Spaces] + r6;
    var r4 := [Literal("function")] + r5;
    var r3 := [Spaces] + r4;
    var r2 := [Literal("async")] + r3;
    var r1 := [Spaces] + r2;
    assert HeaderPattern == [Literal("export")] + r1;
    var e := HeaderEnd(s, p);
    if e >= 0 {
      MatchAtCons(s, p, Literal("export"), r1);
      var j1 := MatchElement(s, p, Literal("export"));
      MatchAtCons(s, j1, Spaces, r2);
      var j2 := MatchElement(s, j1, Spaces);
      MatchAtCons(s, j2, Literal("async"), r3);
      var j3 := MatchElement(s, j2, Literal("async"));
      MatchAtCons(s, j3, Spaces, r4);
      var j4 := MatchElement(s, j3, Spaces);
      MatchAtCons(s, j4, Literal("function"), r5);
      var j5 := MatchElement(s, j4, Literal("function"));
      MatchAtCons(s, j5, Spaces, r6);
      var j6 := MatchElement(s, j5, Spaces);
      MatchAtCons(s, j6, Name, r7);
      var j7 := MatchElement(s, j6, Name);
      MatchAtCons(s, j7, UpToBrace, r8);
      var j8 := MatchElement(s, j7, UpToBrace);
      assert j8 == e;
      MatchElementMeans(s, p, Literal("export"), j1);
      MatchElementMeans(s, j1, Spaces, j2);
      MatchElementMeans(s, j2, Literal("async"), j3);
      MatchElementMeans(s, j3, Spaces, j4);
      MatchElementMeans(s, j4, Literal("function"), j5);
      MatchElementMeans(s, j5, Spaces, j6);
      MatchElementMeans(s, j6, Name, j7);
      MatchElementMeans(s, j7, UpToBrace, j8);
      assert HeaderParts(s, p, j2, j4, j6, j7, e);
    }
  }

  /** A space run that stops at a word starting with a non-space ends there. */
  lemma SpacesBeforeWord(s: string, a: nat, q: nat, w: string)
    requires a < q && AllSpaces(s, a, q) && OccursAt(s, w, q) && |w| > 0 && !IsSpace(w[0])
    ensures MatchElement(s, a, Spaces) == q
  {
    assert s[q] == s[q..q + |w|][0];
    MatchElementMeans(s, a, Spaces, q);
  }

  /** The greedy name and the brace search that follows it end at the first `{` after the name. */
  lemma NameThenBrace(s: string, q3: nat, q4: nat, e: nat)
    requires q3 < q4 && AllWordChars(s, q3, q4) && q4 < e <= |s| && NoBrace(s, q4, e - 1) && s[e - 1] == '{'
    ensures var w := MatchElement(s, q3, Name); w >= 0 && MatchElement(s, w, UpToBrace) == e
  {
    var w := SkipWord(s, q3);
    MatchElementMeans(s, q3, Name, w);
    MatchElementMeans(s, w, UpToBrace, e);
  }

  /** Eight successful element matches in a row make a header match. */
  lemma HeaderChain(s: string, p: nat, j1: nat, j2: nat, j3: nat, j4: nat, j5: nat, j6: nat, j7: nat, j8: nat)
    requires p <= |s| && j1 <= |s| && j2 <= |s| && j3 <= |s| && j4 <= |s| && j5 <= |s| && j6 <= |s| && j7 <= |s|
    requires MatchElement(s, p, Literal("export")) == j1 && MatchElement(s, j1, Spaces) == j2
    requires MatchElement(s, j2, Literal("async")) == j3 && MatchElement(s, j3, Spaces) == j4
    requires MatchElement(s, j4, Literal("function")) == j5 && MatchElement(s, j5, Spaces) == j6
    requires MatchElement(s, j6, Name) == j7 && MatchElement(s, j7, UpToBrace) == j8
    ensures HeaderEnd(s, p) == j8
  {
    var r8: seq<Element> := [];
    var r7 := [UpToBrace] + r8;
    var r6 := [Name] + r7;
    var r5 := [Spaces] + r6;
    var r4 := [Literal("function")] + r5;
    var r3 := [Spaces] + r4;
    var r2 := [Literal("async")] + r3;
    var r1 := [Spaces] + r2;
    assert HeaderPattern == [Literal("export")] + r1;
    MatchAtAfter(s, p, Literal("export"), r1, j1);
    MatchAtAfter(s, j1, Spaces, r2, j2);
    MatchAtAfter(s, j2, Literal("async"), r3, j3);
    MatchAtAfter(s, j3, Spaces, r4, j4);
    MatchAtAfter(s, j4, Literal("function"), r5, j5);
    MatchAtAfter(s, j5, Spaces, r6, j6);
    MatchAtAfter(s, j6, Name, r7, j7);
    MatchAtAfter(s, j7, UpToBrace, r8, j8);
  }

  /** Every way the pattern matches from `p` ends where the scanner says. */
  lemma ShapeHeaderEnd(s: string, p: nat, q1: nat, q2: nat, q3: nat, q4: nat, e: nat)
    requires HeaderParts(s, p, q1, q2, q3, q4, e)
    ensures HeaderEnd(s, p) == e
  {
    MatchElementMeans(s, p, Literal("export"), p + 6);
    SpacesBeforeWord(s, p + 6, q1, "async");
    MatchElementMeans(s, q1, Literal("async"), q1 + 5);
    SpacesBeforeWord(s, q1 + 5, q2, "function");
    MatchElementMeans(s, q2, Literal("function"), q2 + 8);
    assert IsWordChar(s[q3]);
    MatchElementMeans(s, q2 + 8, Spaces, q3);
    NameThenBrace(s, q3, q4, e);
    var w := MatchElement(s, q3, Name);
    HeaderChain(s, p, p + 6, q1, q1 + 5, q2, q2 + 8, q3, w, e);
  }

  /** The scanner ends a header at `e` exactly when `s[p..e]` matches the pattern. */
  lemma HeaderEndMeans(s: string, p: nat, e: int)
    ensures e >= 0 && HeaderEnd(s, p) == e <==> HeaderShape(s, p, e)
  {
    if HeaderShape(s, p, e) {
      var q1: nat, q2: nat, q3: nat, q4: nat :| HeaderParts(s, p, q1, q2, q3, q4, e);
      ShapeHeaderEnd(s, p, q1, q2, q3, q4, e);
    }
    if p <= |s| {
      HeaderEndShape(s, p);
    }
  }

  /** The scanner reports no header at `p` exactly when the pattern matches nothing there. */
  lemma HeaderEndNone(s: string, p: nat)
    ensures HeaderEnd(s, p) == -1 <==> forall e :: !HeaderShape(s, p, e)
  {
    HeaderEndMeans(s, p, HeaderEnd(s, p));
    forall e | HeaderShape(s, p, e)
      ensures HeaderEnd(s, p) == e
    {
      HeaderEndMeans(s, p, e);
    }
  }

  /** A match of the function-header pattern: `s[start..end]`. */
  datatype Header = Header(start: nat, end: nat)

  /** The next match of the header pattern at or after `from`, as `re.finditer` finds it. */
  function NextHeader(s: string, from: nat): (h: Option<Header>)
    decreases |s| - from
    ensures h.Some? ==> from <= h.value.start < h.value.end <= |s| && HeaderEnd(s, h.value.start) == h.value.end
  {
    if from >= |s| then None
    else if HeaderEnd(s, from) >= 0 then Some(Header(from, HeaderEnd(s, from)))
    else NextHeader(s, from + 1)
  }

  /** The match found is the leftmost one: no header starts between `from` and it. */
  lemma {:induction false} NextHeaderIsLeftmost(s: string, from: nat, p: nat)
    requires from <= p
    ensures NextHeader(s, from).None? || p < NextHeader(s, from).value.start ==> HeaderEnd(s, p) == -1
    decreases p - from
  {
    if from < p && from < |s| && HeaderEnd(s, from) < 0 {
      NextHeaderIsLeftmost(s, from + 1, p);
    }
  }

  /** Where the body that starts at `from` ends: at the next `\nexport async function`, or at the end. */
  function BodyEnd(s: string, from: nat): (fe: nat)
    requires from <= |s|
    ensures from <= fe <= |s|
    ensures fe < |s| ==> OccursAt(s, NextFunction, fe)
    ensures forall i :: from <= i < fe ==> !OccursAt(s, NextFunction, i)
  {
    var f := Find(s, NextFunction, from);
    if f < 0 then |s| else f
  }

  /**
   * A body gets a declaration when it uses a pound sign, does not mention
   * `currencySymbol`, and does not call `getCurrencySymbol` in its first 200 characters.
   */
  predicate NeedsDeclaration(body: string)
  {
    Pound in body && !Contains(body, VarName) && !Contains(Take(body, 200), HelperName)
  }

  /** The body opens a `try` block within its first 100 characters. */
  predicate TryNearStart(body: string)
  {
    Contains(Take(body, 100), TryOpen)
  }

  lemma PrefixOccurrence(s: string, n: nat, sub: string)
    requires Contains(Take(s, n), sub)
    ensures Contains(s, sub) && Find(s, sub, 0) + |sub| <= n
  {
    var t := Take(s, n);
    var i := Find(t, sub, 0);
    assert s[i..i + |sub|] == t[i..i + |sub|];
    assert OccursAt(s, sub, i);
  }

  /**
   * The body with its declaration, if it needs one: after the first
   * `\n  try {` (indented four spaces) when that lies within the first 100
   * characters, otherwise at the very start (indented two spaces).
   */
  function AddDeclaration(body: string): (r: string)
    ensures !NeedsDeclaration(body) ==> r == body
    ensures NeedsDeclaration(body) && TryNearStart(body) ==>
      exists j: nat :: && FirstAt(body, TryOpen, j)
                       && j + |TryOpen| <= 100
                       && r == body[..j + |TryOpen|] + DeclInTry + body[j + |TryOpen|..]
    ensures NeedsDeclaration(body) && !TryNearStart(body) ==> r == DeclAtStart + body
  {
    if !NeedsDeclaration(body) then body
    else if TryNearStart(body) then
      PrefixOccurrence(body, 100, TryOpen);
      var j := Find(body, TryOpen, 0);
      assert FirstAt(body, TryOpen, j);
      var k := j + |TryOpen|;
      body[..k] + DeclInTry + body[k..]
    else DeclAtStart + body
  }

  lemma DeclarationsNameTheVariable()
    ensures Contains(DeclInTry, VarName) && Contains(DeclAtStart, VarName)
  {
    OccursInMiddle("\n    const ", VarName, " = " + HelperName + "(params);");
    assert DeclInTry == "\n    const " + VarName + (" = " + HelperName + "(params);");
    OccursInMiddle("\n  const ", VarName, " = " + HelperName + "(params);");
    assert DeclAtStart == "\n  const " + VarName + (" = " + HelperName + "(params);");
  }

  /** A body with its declaration mentions `currencySymbol`, so it needs no further one. */
  lemma DeclaredBodyNeedsNone(body: string)
    requires NeedsDeclaration(body)
    ensures Contains(AddDeclaration(body), VarName)
  {
    DeclarationsNameTheVariable();
    var r := AddDeclaration(body);
    if TryNearStart(body) {
      var j: nat :| && FirstAt(body, TryOpen, j)
                    && j + |TryOpen| <= 100
                    && r == body[..j + |TryOpen|] + DeclInTry + body[j + |TryOpen|..];
      ContainsWithin(body[..j + |TryOpen|], DeclInTry, body[j + |TryOpen|..], VarName);
    } else {
      ContainsBefore(DeclAtStart, body, VarName);
    }
  }

  /** Once declared, a body is left alone: a second pass adds no second declaration. */
  lemma AddDeclarationIdempotent(body: string)
    ensures AddDeclaration(AddDeclaration(body)) == AddDeclaration(body)
  {
    if NeedsDeclaration(body) {
      DeclaredBodyNeedsNone(body);
    }
  }

  /** `t` is `s` with zero or more declaration lines spliced in and nothing else changed. */
  predicate Inserted(s: string, t: string)
  {
    Spliced(s, t, DeclAtStart, DeclInTry)
  }

  /** A body with its declaration is the body with at most one line spliced in. */
  lemma AddDeclarationInserts(body: string)
    ensures Inserted(body, AddDeclaration(body))
  {
    var r := AddDeclaration(body);
    if !NeedsDeclaration(body) {
      SplicedRefl(body, DeclAtStart, DeclInTry);
    } else if TryNearStart(body) {
      var j: nat :| && FirstAt(body, TryOpen, j)
                    && j + |TryOpen| <= 100
                    && r == body[..j + |TryOpen|] + DeclInTry + body[j + |TryOpen|..];
      SplicedInsert(body, j + |TryOpen|, DeclInTry, DeclAtStart, DeclInTry);
    } else {
      SplicedInsert(body, 0, DeclAtStart, DeclAtStart, DeclInTry);
      assert body[..0] + DeclAtStart + body[0..] == r;
    }
  }

  /** Splicing in declarations adds no pound sign and removes none. */
  lemma InsertedKeepsPounds(s: string, t: string)
    requires Inserted(s, t)
    ensures Count(t, Pound) == Count(s, Pound)
  {
    InsertedTextsHaveNoPound();
    SplicedKeepsCount(s, t, DeclAtStart, DeclInTry, Pound);
  }

  /**
   * The loop over header matches, from search position `pos` with the text
   * before `lastEnd` already emitted: for each match, the text since the last
   * body, the header, and the body (up to the next `\nexport async function`)
   * with its declaration. The search continues after the header, not after the
   * body, as `re.finditer` does.
   */
  function Pass(s: string, pos: nat, lastEnd: nat): string
    requires pos <= |s| && lastEnd <= |s|
    decreases |s| - pos
  {
    match NextHeader(s, pos)
    case None => s[lastEnd..]
    case Some(h) =>
      var fe := BodyEnd(s, h.end);
      (if lastEnd <= h.start then s[lastEnd..h.start] else []) + s[h.start..h.end] + AddDeclaration(s[h.end..fe]) + Pass(s, h.end, fe)
  }

  /** One match of the loop: the pieces it emits, then the rest of the pass. */
  lemma PassStep(s: string, pos: nat, lastEnd: nat)
    requires pos <= |s| && lastEnd <= |s| && NextHeader(s, pos).Some?
    ensures var h := NextHeader(s, pos).value;
      Pass(s, pos, lastEnd) ==
        (if lastEnd <= h.start then s[lastEnd..h.start] else []) + s[h.start..h.end] + AddDeclaration(s[h.end..BodyEnd(s, h.end)])
        + Pass(s, h.end, BodyEnd(s, h.end))
  {
  }

  lemma Regroup(a: string, b: string, c: string, d: string, e: string)
    ensures a + b + c + d + e == a + (b + c + d + e)
  {
  }

  /** Python's `''.join(parts)`. */
  function Join(parts: seq<string>): string
  {
    if parts == [] then [] else Join(parts[..|parts| - 1]) + parts[|parts| - 1]
  }

  lemma JoinSnoc(parts: seq<string>, x: string)
    ensures Join(parts + [x]) == Join(parts) + x
  {
    assert (parts + [x])[..|parts|] == parts;
  }

  /** The `parts` loop of step 3. */
  method AddDeclarations(s: string) returns (out: string)
    ensures out == Pass(s, 0, 0)
  {
    var parts: seq<string> := [];
    var lastEnd: nat, pos: nat := 0, 0;
    while true
      invariant pos <= |s| && lastEnd <= |s|
      invariant Join(parts) + Pass(s, pos, lastEnd) == Pass(s, 0, 0)
      decreases |s| - pos
    {
      var m := NextHeader(s, pos);
      if m.None? {
        break;
      }
      var h := m.value;
      var gap := if lastEnd <= h.start then s[lastEnd..h.start] else [];
      var funcEnd := BodyEnd(s, h.end);
      var body := AddDeclaration(s[h.end..funcEnd]);
      ghost var before := Join(parts);
      JoinSnoc(parts, gap);
      JoinSnoc(parts + [gap], s[h.start..h.end]);
      JoinSnoc(parts + [gap] + [s[h.start..h.end]], body);
      PassStep(s, pos, lastEnd);
      Regroup(before, gap, s[h.start..h.end], body, Pass(s, h.end, funcEnd));
      parts := parts + [gap] + [s[h.start..h.end]] + [body];
      lastEnd, pos := funcEnd, h.end;
    }
    JoinSnoc(parts, s[lastEnd..]);
    parts := parts + [s[lastEnd..]];
    out := Join(parts);
  }

  /**
   * Every header match at `p > 0` follows a newline and is spelled exactly
   * `export async function`, so that the body search finds the next header.
   */
  ghost predicate HeadersAligned(s: string)
  {
    forall p :: 0 < p && HeaderEnd(s, p) >= 0 ==> OccursAt(s, NextFunction, p - 1)
  }

  /** The gap before the next header has not been emitted yet. */
  ghost predicate GapAhead(s: string, pos: nat, lastEnd: nat)
  {
    NextHeader(s, pos).Some? ==> lastEnd <= NextHeader(s, pos).value.start
  }

  lemma {:induction false} PassInserts(s: string, pos: nat, lastEnd: nat)
    requires pos <= |s| && lastEnd <= |s|
    requires HeadersAligned(s) && GapAhead(s, pos, lastEnd)
    ensures Inserted(s[lastEnd..], Pass(s, pos, lastEnd))
    decreases |s| - pos
  {
    match NextHeader(s, pos)
    case None =>
      SplicedRefl(s[lastEnd..], DeclAtStart, DeclInTry);
    case Some(h) =>
      var fe := BodyEnd(s, h.end);
      HeaderEndsWithBrace(s, h.start);
      BodyEndsBeforeNextHeader(s, h.end);
      PassInserts(s, h.end, fe);
      var body := s[h.end..fe];
      AddDeclarationInserts(body);
      var head := s[lastEnd..h.start] + s[h.start..h.end];
      SplicedRefl(head, DeclAtStart, DeclInTry);
      SplicedConcat(head, head, body, AddDeclaration(body), DeclAtStart, DeclInTry);
      SplicedConcat(head + body, head + AddDeclaration(body), s[fe..], Pass(s, h.end, fe), DeclAtStart, DeclInTry);
      SlicesJoin(s, lastEnd, h.start, h.end);
      SlicesJoin(s, lastEnd, h.end, fe);
      SlicesJoin(s, lastEnd, fe, |s|);
      assert head + body + s[fe..] == s[lastEnd..];
  }

  /** With aligned headers, a body ends before the next header starts. */
  lemma BodyEndsBeforeNextHeader(s: string, end: nat)
    requires 0 < end <= |s| && s[end - 1] == '{'
    requires HeadersAligned(s)
    ensures GapAhead(s, end, BodyEnd(s, end))
  {
    var next := NextHeader(s, end);
    if next.Some? {
      var st := next.value.start;
      assert OccursAt(s, NextFunction, st - 1);
      assert s[st - 1] == s[st - 1..st - 1 + |NextFunction|][0];
      assert st - 1 >= end;
    }
  }

  /**
   * When the headers are aligned, step 3 changes nothing but the inserted
   * declarations, and keeps every pound sign.
   */
  lemma AlignedPassInserts(s: string)
    requires HeadersAligned(s)
    ensures Inserted(s, Pass(s, 0, 0))
    ensures Count(Pass(s, 0, 0), Pound) == Count(s, Pound)
  {
    PassInserts(s, 0, 0);
    assert s[0..] == s;
    InsertedKeepsPounds(s, Pass(s, 0, 0));
  }

  /**
   * Two headers on one line. The body search looks for a header at the start
   * of a line only, so the first body runs to the end of the text.
   */
  const UnalignedHeaders: string := UnalignedFirst + UnalignedSecond
  const UnalignedFirst: string := "export async function a{"
  const UnalignedSecond: string := "export async function b{"

  lemma FirstUnalignedHeader()
    ensures HeaderEnd(UnalignedHeaders, 0) == 24
  {
    var s := UnalignedHeaders;
    assert s[0..6] == "export" && s[7..12] == "async" && s[13..21] == "function";
    assert HeaderParts(s, 0, 7, 13, 22, 23, 24);
    ShapeHeaderEnd(s, 0, 7, 13, 22, 23, 24);
  }

  lemma SecondUnalignedHeader()
    ensures HeaderEnd(UnalignedHeaders, 24) == 48
  {
    var s := UnalignedHeaders;
    assert s[24..30] == "export" && s[31..36] == "async" && s[37..45] == "function";
    assert HeaderParts(s, 24, 31, 37, 46, 47, 48);
    ShapeHeaderEnd(s, 24, 31, 37, 46, 47, 48);
  }

  lemma UnalignedHeaderMatches()
    ensures NextHeader(UnalignedHeaders, 0) == Some(Header(0, 24))
    ensures NextHeader(UnalignedHeaders, 24) == Some(Header(24, 48))
    ensures NextHeader(UnalignedHeaders, 48) == None
  {
    FirstUnalignedHeader();
    SecondUnalignedHeader();
  }

  /** `\nexport async function` cannot start where there is no newline. */
  lemma NoNextFunctionAt(s: string, i: nat)
    requires i < |s| && s[i] != '\n'
    ensures !OccursAt(s, NextFunction, i)
  {
    if i + |NextFunction| <= |s| {
      assert s[i..i + |NextFunction|][0] == s[i];
    }
  }

  /** In a text without a newline every body runs to the end. */
  lemma BodyEndWithoutNewline(s: string, from: nat)
    requires from <= |s| && '\n' !in s
    ensures BodyEnd(s, from) == |s|
  {
    forall i | from <= i < |s|
      ensures !OccursAt(s, NextFunction, i)
    {
      assert s[i] in s;
      NoNextFunctionAt(s, i);
    }
  }

  /** Both bodies run to the end of the text, and neither gets a declaration. */
  lemma UnalignedBodies()
    ensures BodyEnd(UnalignedHeaders, 24) == 48 && BodyEnd(UnalignedHeaders, 48) == 48
    ensures AddDeclaration(UnalignedHeaders[24..48]) == UnalignedHeaders[24..48]
    ensures AddDeclaration(UnalignedHeaders[48..48]) == []
  {
    var s := UnalignedHeaders;
    assert '\n' !in s;
    BodyEndWithoutNewline(s, 24);
    BodyEndWithoutNewline(s, 48);
    assert s[24..48] == UnalignedSecond;
    assert Pound !in UnalignedSecond;
  }

  /** After the first body the loop finds the second header again and emits it. */
  lemma PassRepeatsSecondHeader()
    ensures Pass(UnalignedHeaders, 24, 48) == UnalignedHeaders[24..48]
  {
    var s := UnalignedHeaders;
    UnalignedHeaderMatches();
    UnalignedBodies();
    assert Pass(s, 48, 48) == [];
    PassStep(s, 24, 48);
  }

  /** The first match emits the first header and a body that holds the second. */
  lemma PassFirstUnalignedHeader()
    ensures Pass(UnalignedHeaders, 0, 0) == UnalignedHeaders + Pass(UnalignedHeaders, 24, 48)
  {
    var s := UnalignedHeaders;
    UnalignedHeaderMatches();
    UnalignedBodies();
    PassStep(s, 0, 0);
    assert s[0..0] + s[0..24] + s[24..48] == s;
  }

  /** The loop as written emits the second header twice. */
  lemma PassRepeatsUnalignedHeader()
    ensures Pass(UnalignedHeaders, 0, 0) == UnalignedHeaders + UnalignedHeaders[24..]
  {
    PassFirstUnalignedHeader();
    PassRepeatsSecondHeader();
  }

  /**
   * Where a body should end: at the next `\nexport async function` or, when a
   * header match comes first, at that header.
   */
  function CorrectedBodyEnd(s: string, end: nat): (fe: nat)
    requires end <= |s|
    ensures end <= fe <= BodyEnd(s, end)
    ensures GapAhead(s, end, fe)
  {
    var fe := BodyEnd(s, end);
    match NextHeader(s, end)
    case Some(n) => if n.start < fe then n.start else fe
    case None => fe
  }

  /** The loop with each body ending at `CorrectedBodyEnd`. */
  function PassCorrected(s: string, pos: nat, lastEnd: nat): string
    requires pos <= |s| && lastEnd <= |s|
    decreases |s| - pos
  {
    match NextHeader(s, pos)
    case None => s[lastEnd..]
    case Some(h) =>
      var fe := CorrectedBodyEnd(s, h.end);
      (if lastEnd <= h.start then s[lastEnd..h.start] else []) + s[h.start..h.end] + AddDeclaration(s[h.end..fe]) + PassCorrected(s, h.end, fe)
  }

  lemma {:induction false} PassCorrectedInserts(s: string, pos: nat, lastEnd: nat)
    requires pos <= |s| && lastEnd <= |s| && GapAhead(s, pos, lastEnd)
    ensures Inserted(s[lastEnd..], PassCorrected(s, pos, lastEnd))
    decreases |s| - pos
  {
    match NextHeader(s, pos)
    case None =>
      SplicedRefl(s[lastEnd..], DeclAtStart, DeclInTry);
    case Some(h) =>
      var fe := CorrectedBodyEnd(s, h.end);
      PassCorrectedInserts(s, h.end, fe);
      var body := s[h.end..fe];
      AddDeclarationInserts(body);
      var head := s[lastEnd..h.start] + s[h.start..h.end];
      SplicedRefl(head, DeclAtStart, DeclInTry);
      SplicedConcat(head, head, body, AddDeclaration(body), DeclAtStart, DeclInTry);
      SplicedConcat(head + body, head + AddDeclaration(body), s[fe..], PassCorrected(s, h.end, fe), DeclAtStart, DeclInTry);
      SlicesJoin(s, lastEnd, h.start, h.end);
      SlicesJoin(s, lastEnd, h.end, fe);
      SlicesJoin(s, lastEnd, fe, |s|);
      assert head + body + s[fe..] == s[lastEnd..];
  }

  /** For every text, the corrected loop only splices in declarations and keeps every pound sign. */
  lemma CorrectedPassInserts(s: string)
    ensures Inserted(s, PassCorrected(s, 0, 0))
    ensures Count(PassCorrected(s, 0, 0), Pound) == Count(s, Pound)
  {
    PassCorrectedInserts(s, 0, 0);
    assert s[0..] == s;
    InsertedKeepsPounds(s, PassCorrected(s, 0, 0));
  }

  /** With aligned headers the correction changes nothing. */
  lemma {:induction false} PassCorrectedAgrees(s: string, pos: nat, lastEnd: nat)
    requires pos <= |s| && lastEnd <= |s| && HeadersAligned(s)
    ensures PassCorrected(s, pos, lastEnd) == Pass(s, pos, lastEnd)
    decreases |s| - pos
  {
    match NextHeader(s, pos)
    case None =>
    case Some(h) =>
      HeaderEndsWithBrace(s, h.start);
      BodyEndsBeforeNextHeader(s, h.end);
      assert CorrectedBodyEnd(s, h.end) == BodyEnd(s, h.end);
      PassCorrectedAgrees(s, h.end, BodyEnd(s, h.end));
  }

  /** One match of the corrected loop. */
  lemma PassCorrectedStep(s: string, pos: nat, lastEnd: nat)
    requires pos <= |s| && lastEnd <= |s| && NextHeader(s, pos).Some?
    ensures var h := NextHeader(s, pos).value;
      PassCorrected(s, pos, lastEnd) ==
        (if lastEnd <= h.start then s[lastEnd..h.start] else []) + s[h.start..h.end] + AddDeclaration(s[h.end..CorrectedBodyEnd(s, h.end)])
        + PassCorrected(s, h.end, CorrectedBodyEnd(s, h.end))
  {
  }

  /** The corrected loop ends the first body where the second header starts. */
  lemma UnalignedCorrectedBodies()
    ensures CorrectedBodyEnd(UnalignedHeaders, 24) == 24 && CorrectedBodyEnd(UnalignedHeaders, 48) == 48
    ensures AddDeclaration(UnalignedHeaders[24..24]) == []
  {
    UnalignedHeaderMatches();
    UnalignedBodies();
  }

  lemma CorrectedSecondHeader()
    ensures PassCorrected(UnalignedHeaders, 24, 24) == UnalignedHeaders[24..48]
  {
    var s := UnalignedHeaders;
    UnalignedHeaderMatches();
    UnalignedBodies();
    UnalignedCorrectedBodies();
    assert PassCorrected(s, 48, 48) == [];
    PassCorrectedStep(s, 24, 24);
    var second := s[24..48];
    assert [] + second + [] + [] == second;
  }

  /** On the one-line example the corrected loop gives back the text unchanged. */
  lemma CorrectedPassKeepsUnalignedHeaders()
    ensures PassCorrected(UnalignedHeaders, 0, 0) == UnalignedHeaders
  {
    var s := UnalignedHeaders;
    UnalignedHeaderMatches();
    UnalignedCorrectedBodies();
    CorrectedSecondHeader();
    PassCorrectedStep(s, 0, 0);
    var first, second := s[0..24], s[24..48];
    assert [] + first + [] + second == s;
  }

  // ---------------------------------------------------------------------------
  // The whole of fix_file, and main

  datatype FixOutcome = FixOutcome(count: nat, message: string, written: Option<string>)

  function FixedMessage(n: nat): string
  {
    "Fixed " + NatToString(n) + " symbols"
  }

  /**
   * What `fix_file` returns and writes back (`written` is `None` when it
   * writes nothing).
   */
  function Fix(content: string, path: string): (r: FixOutcome)
    ensures r.count == Count(content, Pound)
    ensures r.written.None? <==> Pound !in content
    ensures r.written.None? ==> r.message == NoSymbols
    ensures r.written.Some? ==> r.message == FixedMessage(r.count)
  {
    var n := Count(content, Pound);
    if n == 0 then FixOutcome(0, NoSymbols, None)
    else
      FixOutcome(n, FixedMessage(n), Some(ReplaceChar(Pass(WithImport(content, path), 0, 0), Pound, CurrencyVar)))
  }

  /** `fix_file`, step by step. */
  method FixFile(content: string, path: string) returns (r: FixOutcome)
    ensures r == Fix(content, path)
  {
    var poundCount := Count(content, Pound);
    if poundCount == 0 {
      return FixOutcome(0, NoSymbols, None);
    }
    var text := content;
    if !Contains(text, UtilsModule) {
      var lastImport := FindLastImportEnd(text);
      if lastImport.Some? {
        var insertPos := lastImport.value;
        text := text[..insertPos] + ImportLine(path) + text[insertPos..];
      }
    }
    assert text == WithImport(content, path);
    text := AddDeclarations(text);
    text := ReplaceChar(text, Pound, CurrencyVar);
    return FixOutcome(poundCount, FixedMessage(poundCount), Some(text));
  }

  /** A written file holds no pound sign: each one became `${currencySymbol}`. */
  lemma FixClearsPounds(content: string, path: string)
    ensures Fix(content, path).written.Some? ==> Pound !in Fix(content, path).written.value
  {
    InsertedTextsHaveNoPound();
  }

  /** Fixing a fixed file finds nothing to do and writes nothing. */
  lemma FixIdempotent(content: string, path: string)
    requires Fix(content, path).written.Some?
    ensures Fix(Fix(content, path).written.value, path) == FixOutcome(0, NoSymbols, None)
  {
    FixClearsPounds(content, path);
  }

  /**
   * With aligned headers, the written text is the input with the import line
   * and declarations spliced in and every pound sign replaced, and exactly
   * as many pound signs are replaced as were counted.
   */
  lemma FixReplacesWhatItCounts(content: string, path: string)
    requires Pound in content
    requires HeadersAligned(WithImport(content, path))
    ensures var t := Pass(WithImport(content, path), 0, 0);
            && Inserted(WithImport(content, path), t)
            && Fix(content, path).written == Some(ReplaceChar(t, Pound, CurrencyVar))
            && Count(t, Pound) == Fix(content, path).count
  {
    AlignedPassInserts(WithImport(content, path));
    WithImportKeepsPounds(content, path);
  }

  datatype BatchOutcome = BatchOutcome(total: nat, files: map<string, string>)

  /**
   * `main` over the file system `fs`: each listed path that exists is fixed
   * in list order, and its count is added to the total; missing paths are
   * skipped.
   */
  function RunBatch(fs: map<string, string>, paths: seq<string>): (r: BatchOutcome)
    decreases |paths|
  {
    if paths == [] then BatchOutcome(0, fs)
    else if paths[0] !in fs then RunBatch(fs, paths[1..])
    else
      var o := Fix(fs[paths[0]], paths[0]);
      var next := if o.written.Some? then fs[paths[0] := o.written.value] else fs;
      var rest := RunBatch(next, paths[1..]);
      BatchOutcome(o.count + rest.total, rest.files)
  }

  /** The batch touches no file outside the list and creates none. */
  lemma {:induction false} RunBatchKeepsOthers(fs: map<string, string>, paths: seq<string>)
    ensures RunBatch(fs, paths).files.Keys == fs.Keys
    ensures forall p :: p in fs && p !in paths ==> RunBatch(fs, paths).files[p] == fs[p]
    decreases |paths|
  {
    if paths != [] {
      if paths[0] !in fs {
        RunBatchKeepsOthers(fs, paths[1..]);
      } else {
        var o := Fix(fs[paths[0]], paths[0]);
        var next := if o.written.Some? then fs[paths[0] := o.written.value] else fs;
        RunBatchKeepsOthers(next, paths[1..]);
      }
    }
  }

  /** One path of the batch. */
  lemma RunBatchStep(fs: map<string, string>, paths: seq<string>)
    requires paths != []
    ensures paths[0] !in fs ==> RunBatch(fs, paths) == RunBatch(fs, paths[1..])
    ensures paths[0] in fs ==>
      var o := Fix(fs[paths[0]], paths[0]);
      var next := if o.written.Some? then fs[paths[0] := o.written.value] else fs;
      RunBatch(fs, paths) == BatchOutcome(o.count + RunBatch(next, paths[1..]).total, RunBatch(next, paths[1..]).files)
  {
  }

  /** The batch from the `i`-th path on, after one more file is fixed. */
  lemma RunBatchAdvance(fs: map<string, string>, paths: seq<string>, i: nat, o: FixOutcome)
    requires i < |paths| && paths[i] in fs && o == Fix(fs[paths[i]], paths[i])
    ensures var next := if o.written.Some? then fs[paths[i] := o.written.value] else fs;
      && RunBatch(fs, paths[i..]).total == o.count + RunBatch(next, paths[i + 1..]).total
      && RunBatch(fs, paths[i..]).files == RunBatch(next, paths[i + 1..]).files
  {
    assert paths[i..][1..] == paths[i + 1..];
    RunBatchStep(fs, paths[i..]);
  }

  /** The loop of `main`, accumulating `total_fixed`. */
  method FixAll(fs: map<string, string>, paths: seq<string>) returns (total: nat, files: map<string, string>)
    ensures BatchOutcome(total, files) == RunBatch(fs, paths)
  {
    total, files := 0, fs;
    var i := 0;
    while i < |paths|
      invariant i <= |paths|
      invariant total + RunBatch(files, paths[i..]).total == RunBatch(fs, paths).total
      invariant RunBatch(files, paths[i..]).files == RunBatch(fs, paths).files
    {
      var path := paths[i];
      if path in files {
        var outcome := FixFile(files[path], path);
        RunBatchAdvance(files, paths, i, outcome);
        total := total + outcome.count;
        if outcome.written.Some? {
          files := files[path := outcome.written.value];
        }
      } else {
        assert paths[i..][1..] == paths[i + 1..];
        RunBatchStep(files, paths[i..]);
      }
      i := i + 1;
    }
  }

  /** The script's `main`: the batch over `FILES_TO_FIX`. */
  method BatchFixCurrency(fs: map<string, string>) returns (total: nat, files: map<string, string>)
    ensures BatchOutcome(total, files) == RunBatch(fs, FilesToFix)
  {
    total, files := FixAll(fs, FilesToFix);
  }

  /** Pound signs in the listed files that exist. */
  function SumPounds(fs: map<string, string>, paths: seq<string>): nat
    decreases |paths|
  {
    if paths == [] then 0
    else (if paths[0] in fs then Count(fs[paths[0]], Pound) else 0) + SumPounds(fs, paths[1..])
  }

  lemma {:induction false} SumPoundsIgnoresOthers(fs: map<string, string>, p: string, v: string, paths: seq<string>)
    requires p !in paths
    ensures SumPounds(fs[p := v], paths) == SumPounds(fs, paths)
    decreases |paths|
  {
    if paths != [] {
      SumPoundsIgnoresOthers(fs, p, v, paths[1..]);
    }
  }

  /** With no path listed twice, `total_fixed` is the number of pound signs in the files that exist. */
  lemma {:induction false} BatchTotalCountsPounds(fs: map<string, string>, paths: seq<string>)
    requires forall i, j :: 0 <= i < j < |paths| ==> paths[i] != paths[j]
    ensures RunBatch(fs, paths).total == SumPounds(fs, paths)
    decreases |paths|
  {
    if paths != [] {
      var p := paths[0];
      assert p !in paths[1..] by {
        forall j | 0 <= j < |paths[1..]| ensures paths[1..][j] != p {
          assert paths[1..][j] == paths[j + 1];
        }
      }
      if p !in fs {
        BatchTotalCountsPounds(fs, paths[1..]);
      } else {
        var o := Fix(fs[p], p);
        var next := if o.written.Some? then fs[p := o.written.value] else fs;
        BatchTotalCountsPounds(next, paths[1..]);
        if o.written.Some? {
          SumPoundsIgnoresOthers(fs, p, o.written.value, paths[1..]);
        }
      }
    }
  }

  /** After a batch, no listed file that exists holds a pound sign, and unlisted files are untouched. */
  lemma {:induction false} BatchClearsPounds(fs: map<string, string>, paths: seq<string>, q: string)
    requires q in fs
    requires q in paths || Pound !in fs[q]
    ensures q in RunBatch(fs, paths).files && Pound !in RunBatch(fs, paths).files[q]
    decreases |paths|
  {
    RunBatchKeepsOthers(fs, paths);
    if paths != [] {
      var p := paths[0];
      if p !in fs {
        BatchClearsPounds(fs, paths[1..], q);
      } else {
        var o := Fix(fs[p], p);
        var next := if o.written.Some? then fs[p := o.written.value] else fs;
        FixClearsPounds(fs[p], p);
        assert q == p ==> Pound !in next[q];
        BatchClearsPounds(next, paths[1..], q);
      }
    }
  }

  lemma {:induction false} BatchWithoutPounds(fs: map<string, string>, paths: seq<string>)
    requires forall p :: p in fs && p in paths ==> Pound !in fs[p]
    ensures RunBatch(fs, paths) == BatchOutcome(0, fs)
    decreases |paths|
  {
    if paths != [] {
      BatchWithoutPounds(fs, paths[1..]);
    }
  }

  /** Running the batch a second time fixes nothing and writes nothing. */
  lemma BatchIdempotent(fs: map<string, string>, paths: seq<string>)
    ensures var once := RunBatch(fs, paths).files;
            RunBatch(once, paths) == BatchOutcome(0, once)
  {
    var once := RunBatch(fs, paths).files;
    RunBatchKeepsOthers(fs, paths);
    forall p | p in once && p in paths ensures Pound !in once[p] {
      BatchClearsPounds(fs, paths, p);
    }
    BatchWithoutPounds(once, paths);
  }
}
