/**
 * `TypeParser`: how the harness turns the text of one argument of a test
 * case into the Java value a solution parameter takes. The type is named by
 * a string: the test case's type hint when it has one, otherwise the
 * parameter's simple class name. Names the parser does not know fall back to
 * a check of the parameter's class itself. Every exception raised while
 * parsing is rethrown as one `RuntimeException` naming the input and the type.
 */
module TypeParser {
  import opened Wrappers
  import opened JavaString
  import opened JavaValue
  import Scanner
  import TreeCodec

  /** A parameter's `Class`, by the two names the parser asks of it: `getSimpleName()` and `getName()`. */
  datatype JavaClass = JavaClass(simpleName: string, name: string)

  // ============================================================ string values

  /** The two escapes the parser undoes, in its order: `\"` to `"` first, then `\\` to `\`. */
  function Unescape(s: string): string
  {
    ReplaceAll(ReplaceAll(s, "\\\"", "\""), "\\\\", "\\")
  }

  /**
   * `parseStringValue` past its null check, on trimmed text: one pair of
   * surrounding quotes comes off, then one pair of escaped quotes `\"...\"`
   * directly inside them, then the escapes are undone. (The source writes
   * the unquoting as a `while` loop, but the loop leaves after its first
   * pass whatever the text, so it is one conditional here.) An inside that
   * is exactly `\"` makes `substring(2, 0)` throw.
   */
  function Unquoted(t: string): (r: Result<string>)
  {
    if |t| >= 2 && t[0] == '"' && t[|t| - 1] == '"' then
      var u := t[1..|t| - 1];
      if StartsWith(u, "\\\"") && EndsWith(u, "\\\"") then
        match Substring(u, 2, |u| - 2)
        case Ok(v) => Ok(Unescape(v))
        case Err(e) => Err(e)
      else Ok(Unescape(u))
    else Ok(Unescape(t))
  }

  /** `parseStringValue(input)` on a non-null input: null for the token `null`. */
  function StringValue(input: string): (r: Result<Option<string>>)
    ensures r == Ok(None) <==> Trim(input) == "null"
    ensures Trim(input) != "null" ==> r.Ok? == Unquoted(Trim(input)).Ok?
  {
    var t := Trim(input);
    if t == "null" then Ok(None)
    else
      match Unquoted(t)
      case Ok(s) => Ok(Some(s))
      case Err(e) => Err(e)
  }

  /** Text without a backslash has no escape to undo. */
  lemma {:induction false} UnescapePlain(s: string)
    requires '\\' !in s
    ensures Unescape(s) == s
  {
    NoEscape(s, '"');
    ReplaceAbsent(s, "\\\"", "\"");
    NoEscape(s, '\\');
    ReplaceAbsent(s, "\\\\", "\\");
  }

  lemma {:induction false} NoEscape(s: string, c: char)
    requires '\\' !in s
    ensures !Contains(s, ['\\', c])
  {
    forall i | 0 <= i <= |s| - 2
      ensures !OccursAt(s, ['\\', c], i)
    {
      assert s[i..i + 2][0] == s[i];
    }
  }

  /** The only text whose unquoting throws is `"\""`: its inside `\"` is too short for `substring(2, 0)`. */
  lemma {:induction false} UnquotedThrows(t: string)
    ensures Unquoted(t).Err? <==> t == "\"\\\"\""
    ensures Unquoted(t).Err? ==> Unquoted(t).error.kind == IndexOutOfBounds
  {
    if |t| >= 2 && t[0] == '"' && t[|t| - 1] == '"' {
      var u := t[1..|t| - 1];
      if StartsWith(u, "\\\"") && EndsWith(u, "\\\"") {
        assert u[..2][1] == u[1] && u[|u| - 2..][0] == u[|u| - 2];
        if |u| < 4 {
          assert |u| == 2;
          assert u == "\\\"";
          assert t == "\"" + u + "\"";
        }
      }
    }
    if t == "\"\\\"\"" {
      var u := t[1..|t| - 1];
      assert u == "\\\"";
      assert StartsWith(u, "\\\"") && EndsWith(u, "\\\"");
    }
  }

  /** Trimmed text with no quote and no backslash, other than `null`, is its own string value. */
  lemma {:induction false} StringValuePlain(s: string)
    requires Trim(s) == s && s != "null" && '"' !in s && '\\' !in s
    ensures StringValue(s) == Ok(Some(s))
  {
    UnescapePlain(s);
    assert !(|s| >= 2 && s[0] == '"');
  }

  /** A quoted string, with any blank around it, is read back as what is between the quotes. */
  lemma {:induction false} StringValueQuoted(s: string, x: string)
    requires Trim(s) == "\"" + x + "\"" && '"' !in x && '\\' !in x
    ensures StringValue(s) == Ok(Some(x))
  {
    var t := "\"" + x + "\"";
    assert t[1..|t| - 1] == x;
    assert t != "null" by {
      assert t[0] == '"';
    }
    if |x| >= 2 {
      assert x[..2][0] == x[0];
    }
    UnescapePlain(x);
  }

  /** Escaped quotes just inside the quotes come off too: `"\"x\""` reads as `x`. */
  lemma {:induction false} StringValueEscapedQuotes(x: string)
    requires '"' !in x && '\\' !in x
    ensures StringValue("\"\\\"" + x + "\\\"\"") == Ok(Some(x))
  {
    var t := "\"\\\"" + x + "\\\"\"";
    var u := "\\\"" + x + "\\\"";
    assert t == "\"" + u + "\"";
    assert t[1..|t| - 1] == u;
    assert StartsWith(u, "\\\"") && EndsWith(u, "\\\"") by {
      assert u[..2] == "\\\"";
      assert u[|u| - 2..] == "\\\"";
    }
    assert u[2..|u| - 2] == x;
    UnescapePlain(x);
    TrimOfTrimmed(t);
    assert t != "null" by {
      assert t[0] == '"';
    }
  }

  // ====================================================== parsing in order

  /**
   * The `for` loops of the array parsers, as one function: each piece
   * parsed in order, the first exception ending the parse.
   */
  function MapParse(f: string -> Result<Value>, parts: seq<string>): (r: Result<seq<Value>>)
    ensures r.Ok? ==> |r.value| == |parts|
  {
    if parts == [] then Ok([])
    else
      match f(parts[0])
      case Err(e) => Err(e)
      case Ok(x) =>
        match MapParse(f, parts[1..])
        case Err(e) => Err(e)
        case Ok(xs) => Ok([x] + xs)
  }

  /** The parse succeeds exactly when every piece does, and then holds each piece's value in order. */
  lemma {:induction false} MapParseOk(f: string -> Result<Value>, parts: seq<string>)
    ensures MapParse(f, parts).Ok? <==> forall i :: 0 <= i < |parts| ==> f(parts[i]).Ok?
    ensures MapParse(f, parts).Ok? ==>
      forall i :: 0 <= i < |parts| ==> f(parts[i]) == Ok(MapParse(f, parts).value[i])
  {
    if parts != [] {
      MapParseOk(f, parts[1..]);
      if f(parts[0]).Ok? && MapParse(f, parts[1..]).Ok? {
        var r := MapParse(f, parts).value;
        forall i | 0 <= i < |parts|
          ensures f(parts[i]) == Ok(r[i])
        {
          if i > 0 {
            assert parts[i] == parts[1..][i - 1];
          }
        }
      } else if f(parts[0]).Ok? {
        var i :| 0 <= i < |parts| - 1 && !f(parts[1..][i]).Ok?;
        assert parts[1..][i] == parts[i + 1];
      }
    }
  }

  /** The first piece that fails decides the exception. */
  lemma {:induction false} MapParseError(f: string -> Result<Value>, parts: seq<string>, i: nat)
    requires i < |parts| && f(parts[i]).Err?
    requires forall j :: 0 <= j < i ==> f(parts[j]).Ok?
    ensures MapParse(f, parts) == Err(f(parts[i]).error)
  {
    if i > 0 {
      var rest := parts[1..];
      assert rest[i - 1] == parts[i];
      assert forall j :: 0 <= j < i - 1 ==> f(rest[j]).Ok? by {
        forall j | 0 <= j < i - 1
          ensures f(rest[j]).Ok?
        {
          assert rest[j] == parts[j + 1];
        }
      }
      MapParseError(f, rest, i - 1);
      assert f(parts[0]).Ok?;
    }
  }

  /** When each piece parses to a known value, the whole parse gives those values. */
  lemma {:induction false} MapParseEach(f: string -> Result<Value>, parts: seq<string>, values: seq<Value>)
    requires |values| == |parts|
    requires forall i :: 0 <= i < |parts| ==> f(parts[i]) == Ok(values[i])
    ensures MapParse(f, parts) == Ok(values)
  {
    MapParseOk(f, parts);
    assert forall i :: 0 <= i < |parts| ==> f(parts[i]).Ok?;
    var r := MapParse(f, parts).value;
    assert forall i :: 0 <= i < |parts| ==> r[i] == values[i];
    assert r == values;
  }

  /** The loop of the array parsers: fill the result slot by slot, stopping at the first exception. */
  method ParseEach(f: string -> Result<Value>, parts: seq<string>) returns (r: Result<seq<Value>>)
    ensures r == MapParse(f, parts)
  {
    var result: seq<Value> := [];
    for i := 0 to |parts|
      invariant |result| == i
      invariant forall j :: 0 <= j < i ==> f(parts[j]) == Ok(result[j])
    {
      var x := f(parts[i]);
      if x.Err? {
        MapParseError(f, parts, i);
        return Err(x.error);
      }
      result := result + [x.value];
    }
    MapParseEach(f, parts, result);
    return Ok(result);
  }

  // ============================================================= scalars

  /** `parseInteger`: `Integer.parseInt` of the string value, untrimmed. */
  function IntegerValue(t: string): (r: Result<Value>)
    requires Trim(t) != "null"
    ensures r.Ok? ==> r.value.Int? && INT_MIN <= r.value.i <= INT_MAX
  {
    match Unquoted(Trim(t))
    case Err(e) => Err(e)
    case Ok(s) =>
      match ParseInt(s)
      case Ok(n) => Ok(Int(n))
      case Err(e) => Err(e)
  }

  /** `parseLong`: `Long.parseLong` of the string value. */
  function LongValue(t: string): (r: Result<Value>)
    requires Trim(t) != "null"
    ensures r.Ok? ==> r.value.Long? && LONG_MIN <= r.value.l <= LONG_MAX
  {
    match Unquoted(Trim(t))
    case Err(e) => Err(e)
    case Ok(s) =>
      match ParseLong(s)
      case Ok(n) => Ok(Long(n))
      case Err(e) => Err(e)
  }

  /** `parseDouble`: `Double.parseDouble` of the string value. */
  function DoubleValue(t: string): (r: Result<Value>)
    requires Trim(t) != "null"
    ensures r.Ok? ==> r.value.Double? && DoubleLiteral(r.value.text)
  {
    match Unquoted(Trim(t))
    case Err(e) => Err(e)
    case Ok(s) =>
      match ParseDouble(s)
      case Ok(d) => Ok(Double(d))
      case Err(e) => Err(e)
  }

  /** `parseBoolean`: true exactly for the string value `true` in any case; it never throws on unquoting text other than `"\""`. */
  function BooleanValue(t: string): (r: Result<Value>)
    requires Trim(t) != "null"
    ensures r.Ok? <==> Unquoted(Trim(t)).Ok?
    ensures r.Ok? ==> r.value == Bool(ParsesAsTrue(Unquoted(Trim(t)).value))
  {
    match Unquoted(Trim(t))
    case Err(e) => Err(e)
    case Ok(s) => Ok(Bool(ParsesAsTrue(s)))
  }

  /** `parseString`: the string value. */
  function StringOf(t: string): (r: Result<Value>)
    requires Trim(t) != "null"
    ensures r.Ok? <==> StringValue(t).Ok?
    ensures r.Ok? ==> r.value == Str(StringValue(t).value.value)
  {
    match Unquoted(Trim(t))
    case Err(e) => Err(e)
    case Ok(s) => Ok(Str(s))
  }

  /** `parseCharacter`: the string value must be exactly one character. */
  function CharacterValue(t: string): (r: Result<Value>)
    requires Trim(t) != "null"
    ensures r.Ok? <==> Unquoted(Trim(t)).Ok? && |Unquoted(Trim(t)).value| == 1
    ensures r.Ok? ==> r.value == Char(Unquoted(Trim(t)).value[0])
    ensures Unquoted(Trim(t)).Ok? && !r.Ok? ==>
      r.error == Exc(IllegalArgument, Some("Character input must be exactly one character"))
  {
    match Unquoted(Trim(t))
    case Err(e) => Err(e)
    case Ok(s) =>
      if |s| != 1 then Throw(IllegalArgument, "Character input must be exactly one character")
      else Ok(Char(s[0]))
  }

  // ========================================================= 1D arrays

  /** The element types of the one-dimensional array parsers. */
  datatype Element = IntElement | IntegerElement | StringElement | DoubleElement | CharElement | BooleanElement

  /** The array class each parser builds. */
  function ElementArray(k: Element): ArrayKind
  {
    match k
    case IntElement => IntArr
    case IntegerElement => IntegerArr
    case StringElement => StringArr
    case DoubleElement => DoubleArr
    case CharElement => CharArr
    case BooleanElement => BooleanArr
  }

  /** The message each parser throws for text that is not bracketed. */
  function FormatMessage(k: Element): string
  {
    match k
    case IntElement => "Array input must be in format [1,2,3]"
    case IntegerElement => "Array input must be in format [1,2,3]"
    case StringElement => "Array input must be in format [\"a\",\"b\",\"c\"]"
    case DoubleElement => "Array input must be in format [1.0,2.5,3.14]"
    case CharElement => "Array input must be in format [\"a\",\"b\",\"c\"]"
    case BooleanElement => "Array input must be in format [true,false,true]"
  }

  /** An `int[]` element: `Integer.parseInt` of the trimmed piece. */
  function IntElementValue(part: string): (r: Result<Value>)
    ensures r.Ok? ==> r.value.Int? && INT_MIN <= r.value.i <= INT_MAX
    ensures r.Err? ==> r.error.kind == NumberFormat
  {
    match ParseInt(Trim(part))
    case Ok(n) => Ok(Int(n))
    case Err(e) => Err(e)
  }

  /** An `Integer[]` element: null for the token `null`, otherwise as for `int[]`. */
  function IntegerElementValue(part: string): (r: Result<Value>)
    ensures r == Ok(Null) <==> Trim(part) == "null"
    ensures Trim(part) != "null" ==> r == IntElementValue(part)
  {
    var p := Trim(part);
    if p == "null" then Ok(Null)
    else
      match ParseInt(p)
      case Ok(n) => Ok(Int(n))
      case Err(e) => Err(e)
  }

  /** A `String[]` element: the string value of the trimmed piece, null for `null`. */
  function StringElementValue(part: string): (r: Result<Value>)
    ensures r == Ok(Null) <==> Trim(part) == "null"
    ensures r.Ok? <==> Trim(part) == "null" || Unquoted(Trim(part)).Ok?
    ensures r.Ok? && r != Ok(Null) ==> r.value == Str(Unquoted(Trim(part)).value)
  {
    TrimIdempotent(part);
    match StringValue(Trim(part))
    case Err(e) => Err(e)
    case Ok(None) => Ok(Null)
    case Ok(Some(s)) => Ok(Str(s))
  }

  /** A `double[]` element: the trimmed piece when `Double.parseDouble` accepts it. */
  function DoubleElementValue(part: string): (r: Result<Value>)
    ensures r.Ok? <==> DoubleLiteral(Trim(part))
    ensures r.Ok? ==> r.value == Double(Trim(part))
  {
    TrimIdempotent(part);
    match ParseDouble(Trim(part))
    case Ok(d) => Ok(Double(d))
    case Err(e) => Err(e)
  }

  /**
   * A `char[]` element: the string value of the trimmed piece, which must be
   * exactly one character; a `null` piece makes the length check dereference null.
   */
  function CharElementValue(part: string): (r: Result<Value>)
    ensures Trim(part) == "null" ==> r == Err(NullDereference("String.length()", "charStr"))
    ensures r.Ok? <==> Trim(part) != "null" && Unquoted(Trim(part)).Ok? && |Unquoted(Trim(part)).value| == 1
    ensures r.Ok? ==> r.value == Char(Unquoted(Trim(part)).value[0])
    ensures Trim(part) != "null" && Unquoted(Trim(part)).Ok? && !r.Ok? ==>
      r.error == Exc(IllegalArgument, Some("Each character must be exactly one character"))
  {
    TrimIdempotent(part);
    match StringValue(Trim(part))
    case Err(e) => Err(e)
    case Ok(None) => Err(NullDereference("String.length()", "charStr"))
    case Ok(Some(s)) =>
      if |s| != 1 then Throw(IllegalArgument, "Each character must be exactly one character")
      else Ok(Char(s[0]))
  }

  /** One element of a one-dimensional array, by element type; `boolean[]` is true exactly for `true` in any case. */
  function ParseElement(k: Element, part: string): Result<Value>
  {
    match k
    case IntElement => IntElementValue(part)
    case IntegerElement => IntegerElementValue(part)
    case StringElement => StringElementValue(part)
    case DoubleElement => DoubleElementValue(part)
    case CharElement => CharElementValue(part)
    case BooleanElement => Ok(Bool(ParsesAsTrue(Trim(part))))
  }

  /** `s.startsWith("[") && s.endsWith("]")`. */
  predicate Bracketed(s: string)
  {
    StartsWith(s, "[") && EndsWith(s, "]")
  }

  lemma {:induction false} BracketedLength(s: string)
    requires Bracketed(s)
    ensures |s| >= 2 && s[0] == '[' && s[|s| - 1] == ']'
  {
    assert s[..1][0] == s[0];
    assert s[|s| - 1..][0] == s[|s| - 1];
  }

  /** The pieces an array parser parses: none for a blank inside, else the top-level split of the inside. */
  function ArrayParts(s: string): (parts: seq<string>)
    requires Bracketed(s)
  {
    BracketedLength(s);
    var content := Trim(s[1..|s| - 1]);
    if content == [] then [] else Scanner.SplitTop(Scanner.Nested, content)
  }

  /**
   * The one-dimensional array parsers: the text must be bracketed; a blank
   * inside is the empty array; otherwise the inside is split at top-level
   * commas and each piece parsed as an element.
   */
  function Array1D(k: Element, s: string): (r: Result<Value>)
    ensures !Bracketed(s) ==> r == Throw(IllegalArgument, FormatMessage(k))
    ensures r.Ok? ==> Bracketed(s) && r.value.Array? && r.value.kind == ElementArray(k)
  {
    if !Bracketed(s) then Throw(IllegalArgument, FormatMessage(k))
    else
      match MapParse((p: string) => ParseElement(k, p), ArrayParts(s))
      case Ok(items) => Ok(Array(ElementArray(k), items))
      case Err(e) => Err(e)
  }

  /**
   * A bracketed text gives one element per top-level piece, each the piece
   * parsed, and parses exactly when every piece does.
   */
  lemma {:induction false} Array1DItems(k: Element, s: string)
    requires Bracketed(s)
    ensures var r := Array1D(k, s);
      r.Ok? ==> (|r.value.items| == |ArrayParts(s)|
        && forall i :: 0 <= i < |ArrayParts(s)| ==> ParseElement(k, ArrayParts(s)[i]) == Ok(r.value.items[i]))
    ensures Array1D(k, s).Ok? <==> forall i :: 0 <= i < |ArrayParts(s)| ==> ParseElement(k, ArrayParts(s)[i]).Ok?
  {
    MapParseOk((p: string) => ParseElement(k, p), ArrayParts(s));
  }

  // ========================================================= 2D arrays

  /** The element types of the two-dimensional array parsers. */
  datatype Grid = IntGrid | CharGrid | StringGrid

  /** The parser each row goes through. */
  function RowElement(g: Grid): Element
  {
    match g
    case IntGrid => IntElement
    case CharGrid => CharElement
    case StringGrid => StringElement
  }

  function GridArray(g: Grid): ArrayKind
  {
    match g
    case IntGrid => Int2D
    case CharGrid => Char2D
    case StringGrid => String2D
  }

  function GridMessage(g: Grid): string
  {
    match g
    case IntGrid => "2D array input must be in format [[1,2],[3,4]]"
    case CharGrid => "2D array input must be in format [[\"a\",\"b\"],[\"c\",\"d\"]]"
    case StringGrid => "2D array input must be in format [[\"a\",\"b\"],[\"c\",\"d\"]]"
  }

  /** `s.startsWith("[[") && s.endsWith("]]")`. */
  predicate DoublyBracketed(s: string)
  {
    StartsWith(s, "[[") && EndsWith(s, "]]")
  }

  lemma {:induction false} DoublyBracketedLength(s: string)
    requires DoublyBracketed(s)
    ensures |s| >= 4 && Bracketed(s)
  {
    assert s[..2][0] == s[0] && s[..2][1] == s[1];
    assert s[|s| - 2..][0] == s[|s| - 2] && s[|s| - 2..][1] == s[|s| - 1];
    assert s[..1] == "[" && s[|s| - 1..] == "]";
  }

  /** The rows a two-dimensional parser parses: none for a blank inside, else the bracketed segments of the inside. */
  function GridRows(s: string): (rows: seq<string>)
    requires DoublyBracketed(s)
  {
    DoublyBracketedLength(s);
    var content := Trim(s[1..|s| - 1]);
    if content == [] then [] else Scanner.SplitRows(content)
  }

  /**
   * The two-dimensional array parsers: the text must start with `[[` and
   * end with `]]`; a blank inside gives no rows; otherwise each bracketed
   * row is parsed by the one-dimensional parser.
   */
  function Array2D(g: Grid, s: string): (r: Result<Value>)
    ensures !DoublyBracketed(s) ==> r == Throw(IllegalArgument, GridMessage(g))
    ensures r.Ok? ==> DoublyBracketed(s) && r.value.Array? && r.value.kind == GridArray(g)
  {
    if !DoublyBracketed(s) then Throw(IllegalArgument, GridMessage(g))
    else
      match MapParse((row: string) => Array1D(RowElement(g), row), GridRows(s))
      case Ok(rows) => Ok(Array(GridArray(g), rows))
      case Err(e) => Err(e)
  }

  /** A text in `[[...]]` that parses gives one row per bracketed segment, each read by the row parser. */
  lemma {:induction false} Array2DRows(g: Grid, s: string)
    requires DoublyBracketed(s)
    ensures var r := Array2D(g, s);
      r.Ok? ==> (|r.value.items| == |GridRows(s)|
        && forall i :: 0 <= i < |GridRows(s)| ==> Array1D(RowElement(g), GridRows(s)[i]) == Ok(r.value.items[i]))
    ensures Array2D(g, s).Ok? <==> forall i :: 0 <= i < |GridRows(s)| ==> Array1D(RowElement(g), GridRows(s)[i]).Ok?
  {
    MapParseOk((row: string) => Array1D(RowElement(g), row), GridRows(s));
  }

  /** An empty matrix written `[]` is rejected: it does not start with `[[`. */
  lemma {:induction false} EmptyGridRejected(g: Grid)
    ensures Array2D(g, "[]") == Throw(IllegalArgument, GridMessage(g))
  {
    assert !StartsWith("[]", "[[") by {
      assert "[]"[..2][1] == ']';
    }
  }

  // ============================================================= lists

  /** `new ArrayList<>(Arrays.asList(array))` and its boxed variants: the array's elements as a list. */
  function AsList(r: Result<Value>): Result<Value>
  {
    match r
    case Ok(Array(_, items)) => Ok(List(items))
    case other => other
  }

  /** Each row of a two-dimensional array as a list of its elements. */
  function RowLists(rows: seq<Value>): (lists: seq<Value>)
    ensures |lists| == |rows|
    ensures forall i :: 0 <= i < |rows| ==> lists[i] == if rows[i].Array? then List(rows[i].items) else rows[i]
  {
    seq(|rows|, i requires 0 <= i < |rows| => if rows[i].Array? then List(rows[i].items) else rows[i])
  }

  /** The `for` loop of `parseIntegerListList` and `parseStringListList`: one list per row. */
  method BoxRows(rows: seq<Value>) returns (lists: seq<Value>)
    ensures lists == RowLists(rows)
  {
    lists := [];
    for i := 0 to |rows|
      invariant lists == RowLists(rows[..i])
    {
      var row := rows[i];
      var list := if row.Array? then List(row.items) else row;
      assert rows[..i + 1] == rows[..i] + [row];
      lists := lists + [list];
    }
    assert rows[..|rows|] == rows;
  }

  /** `List<List<...>>`: the matrix, as a list of row lists. */
  function AsListOfLists(r: Result<Value>): (q: Result<Value>)
    ensures r.Ok? && r.value.Array? ==> q == Ok(List(RowLists(r.value.items)))
  {
    match r
    case Ok(Array(_, rows)) => Ok(List(RowLists(rows)))
    case other => other
  }

  // ============================================================== trees

  /** `parseTreeNode`: the string value read by `TreeNode.parseArray`, then built by `TreeNode.fromArray`. */
  function TreeOf(t: string): (r: Result<Value>)
    requires Trim(t) != "null"
    ensures r.Ok? ==> Unquoted(Trim(t)).Ok? && exists a :: (TreeCodec.ParseArraySpec(Unquoted(Trim(t)).value) == Ok(a)
      && r.value == TreeValue(TreeCodec.FromArraySpec(a)))
  {
    match Unquoted(Trim(t))
    case Err(e) => Err(e)
    case Ok(s) =>
      match TreeCodec.ParseArraySpec(s)
      case Err(e) => Err(e)
      case Ok(a) => Ok(TreeValue(TreeCodec.FromArraySpec(a)))
  }

  // ========================================================== dispatch

  /** The type the parser goes by: the hint when there is one, otherwise the parameter's simple name. */
  function EffectiveType(cls: JavaClass, hint: Option<string>): (eff: string)
    ensures hint.Some? ==> eff == hint.value
    ensures hint.None? ==> eff == cls.simpleName
  {
    if hint.Some? then hint.value else cls.simpleName
  }

  /** The type names the `switch` of `parseParameter` has a case for. */
  datatype TypeName =
    | IntName | LongName | DoubleName | BooleanName | StringName | CharName
    | IntArrayName | IntegerArrayName | StringArrayName | DoubleArrayName | CharArrayName | BooleanArrayName
    | IntMatrixName | CharMatrixName | StringMatrixName
    | IntegerListName | StringListName | DoubleListName | IntegerListListName | StringListListName
    | TreeNodeName | ListNodeName

  /** The case label a type name matches, in the order the `switch` lists them; none for the default. */
  function CaseOf(eff: string): Option<TypeName>
  {
    if eff == "int" || eff == "Integer" then Some(IntName)
    else if eff == "long" || eff == "Long" then Some(LongName)
    else if eff == "double" || eff == "Double" then Some(DoubleName)
    else if eff == "boolean" || eff == "Boolean" then Some(BooleanName)
    else if eff == "String" then Some(StringName)
    else if eff == "char" || eff == "Character" then Some(CharName)
    else if eff == "int[]" then Some(IntArrayName)
    else if eff == "Integer[]" then Some(IntegerArrayName)
    else if eff == "String[]" then Some(StringArrayName)
    else if eff == "double[]" then Some(DoubleArrayName)
    else if eff == "char[]" then Some(CharArrayName)
    else if eff == "boolean[]" then Some(BooleanArrayName)
    else if eff == "int[][]" then Some(IntMatrixName)
    else if eff == "char[][]" then Some(CharMatrixName)
    else if eff == "String[][]" then Some(StringMatrixName)
    else if eff == "List<Integer>" then Some(IntegerListName)
    else if eff == "List<String>" then Some(StringListName)
    else if eff == "List<Double>" then Some(DoubleListName)
    else if eff == "List<List<Integer>>" then Some(IntegerListListName)
    else if eff == "List<List<String>>" then Some(StringListListName)
    else if eff == "TreeNode" then Some(TreeNodeName)
    else if eff == "ListNode" then Some(ListNodeName)
    else None
  }

  /** The names `switch` knows, besides which it falls back to the parameter's class. */
  predicate KnownType(eff: string)
  {
    CaseOf(eff).Some?
  }

  /** The classes the fallback recognises, by `getName()` (and `TreeNode` by its simple name). */
  predicate FallbackClass(cls: JavaClass)
  {
    cls.simpleName == "TreeNode"
    || cls.name in {"int", "java.lang.Integer", "java.lang.String", "boolean", "java.lang.Boolean",
                    "double", "java.lang.Double", "long", "java.lang.Long"}
  }

  /**
   * `parseParameterFallback`: the parameter's class decides, checked in the
   * order tree, int, String, boolean, double, long; unlike the named
   * parsers it trims the string value before parsing a number or boolean.
   */
  function Fallback(cls: JavaClass, t: string): (r: Result<Value>)
    requires Trim(t) != "null"
    ensures !FallbackClass(cls) ==> r == Throw(Runtime, "Unsupported parameter type: " + cls.name)
    ensures cls.simpleName == "TreeNode" ==> r == TreeOf(t)
  {
    if cls.simpleName == "TreeNode" then TreeOf(t)
    else
      match Unquoted(Trim(t))
      case Err(e) =>
        if FallbackClass(cls) then Err(e) else Throw(Runtime, "Unsupported parameter type: " + cls.name)
      case Ok(s) =>
        if cls.name == "int" || cls.name == "java.lang.Integer" then
          (match ParseInt(Trim(s)) case Ok(n) => Ok(Int(n)) case Err(e) => Err(e))
        else if cls.name == "java.lang.String" then Ok(Str(s))
        else if cls.name == "boolean" || cls.name == "java.lang.Boolean" then Ok(Bool(ParsesAsTrue(Trim(s))))
        else if cls.name == "double" || cls.name == "java.lang.Double" then
          (match ParseDouble(Trim(s)) case Ok(d) => Ok(Double(d)) case Err(e) => Err(e))
        else if cls.name == "long" || cls.name == "java.lang.Long" then
          (match ParseLong(Trim(s)) case Ok(n) => Ok(Long(n)) case Err(e) => Err(e))
        else Throw(Runtime, "Unsupported parameter type: " + cls.name)
  }

  // The parsers the `switch` of `parseParameter` calls, one per case as in the source.

  function ParseIntArray(t: string): Result<Value> { Array1D(IntElement, t) }
  function ParseIntegerArray(t: string): Result<Value> { Array1D(IntegerElement, t) }
  function ParseStringArray(t: string): Result<Value> { Array1D(StringElement, t) }
  function ParseDoubleArray(t: string): Result<Value> { Array1D(DoubleElement, t) }
  function ParseCharArray(t: string): Result<Value> { Array1D(CharElement, t) }
  function ParseBooleanArray(t: string): Result<Value> { Array1D(BooleanElement, t) }
  function ParseInt2DArray(t: string): Result<Value> { Array2D(IntGrid, t) }
  function ParseChar2DArray(t: string): Result<Value> { Array2D(CharGrid, t) }
  function ParseString2DArray(t: string): Result<Value> { Array2D(StringGrid, t) }
  function ParseIntegerList(t: string): Result<Value> { AsList(Array1D(IntegerElement, t)) }
  function ParseStringList(t: string): Result<Value> { AsList(Array1D(StringElement, t)) }
  function ParseDoubleList(t: string): Result<Value> { AsList(Array1D(DoubleElement, t)) }
  function ParseIntegerListList(t: string): Result<Value> { AsListOfLists(Array2D(IntGrid, t)) }
  function ParseStringListList(t: string): Result<Value> { AsListOfLists(Array2D(StringGrid, t)) }

  /** `parseListNode`: a stub that always throws, since there is no `ListNode` class. */
  function ParseListNode(t: string): Result<Value>
  {
    Throw(Runtime, "ListNode parsing not yet implemented")
  }

  /**
   * The parser a case of the `switch` of `parseParameter` calls, or the
   * fallback on the parameter's class for the default case. Each parser is
   * applied to the trimmed input, which is never the token `null`.
   */
  function Parser(tag: Option<TypeName>, cls: JavaClass): (p: string --> Result<Value>)
    ensures forall t :: Trim(t) != "null" ==> p.requires(t)
  {
    match tag
    case None => t requires Trim(t) != "null" => Fallback(cls, t)
    case Some(name) =>
      match name
      case IntName => IntegerValue
      case LongName => LongValue
      case DoubleName => DoubleValue
      case BooleanName => BooleanValue
      case StringName => StringOf
      case CharName => CharacterValue
      case IntArrayName => ParseIntArray
      case IntegerArrayName => ParseIntegerArray
      case StringArrayName => ParseStringArray
      case DoubleArrayName => ParseDoubleArray
      case CharArrayName => ParseCharArray
      case BooleanArrayName => ParseBooleanArray
      case IntMatrixName => ParseInt2DArray
      case CharMatrixName => ParseChar2DArray
      case StringMatrixName => ParseString2DArray
      case IntegerListName => ParseIntegerList
      case StringListName => ParseStringList
      case DoubleListName => ParseDoubleList
      case IntegerListListName => ParseIntegerListList
      case StringListListName => ParseStringListList
      case TreeNodeName => TreeOf
      case ListNodeName => ParseListNode
  }

  /** The `switch` of `parseParameter` on the effective type, before exceptions are wrapped. */
  function Dispatch(tag: Option<TypeName>, cls: JavaClass, t: string): Result<Value>
    requires Trim(t) != "null"
  {
    Parser(tag, cls)(t)
  }

  /** The message of the exception `parseParameter` rethrows. */
  function FailureMessage(t: string, eff: string, cause: Exc): string
  {
    "Failed to parse input '" + t + "' as type '" + eff + "': " + OrNull(cause.message)
  }

  /**
   * `parseParameter(paramType, inputValue, typeHint)`: null (an absent
   * input or the token `null`) for every type; otherwise the trimmed input
   * parsed by the effective type, any exception rethrown as a
   * `RuntimeException` naming the input and the type.
   */
  function ParseParameter(cls: JavaClass, input: Option<string>, hint: Option<string>): (r: Result<Value>)
    ensures input.None? || Trim(input.value) == "null" ==> r == Ok(Null)
    ensures r.Err? ==> (input.Some? && Trim(input.value) != "null" && r.error.kind == Runtime
      && Dispatch(CaseOf(EffectiveType(cls, hint)), cls, Trim(input.value)).Err?
      && r.error.message == Some(FailureMessage(Trim(input.value), EffectiveType(cls, hint),
                                                Dispatch(CaseOf(EffectiveType(cls, hint)), cls, Trim(input.value)).error)))
    ensures r.Ok? && input.Some? && Trim(input.value) != "null" ==>
      r == Dispatch(CaseOf(EffectiveType(cls, hint)), cls, Trim(input.value))
  {
    var eff := EffectiveType(cls, hint);
    if input.None? || Trim(input.value) == "null" then Ok(Null)
    else
      var t := Trim(input.value);
      TrimIdempotent(input.value);
      match Dispatch(CaseOf(eff), cls, t)
      case Ok(v) => Ok(v)
      case Err(e) => Throw(Runtime, FailureMessage(t, eff, e))
  }

  // ============================================================ properties

  /** A name the parser does not know, for a class the fallback does not know, is reported as unsupported. */
  lemma {:induction false} UnsupportedType(cls: JavaClass, input: string, hint: Option<string>)
    requires Trim(input) != "null"
    requires !KnownType(EffectiveType(cls, hint)) && !FallbackClass(cls)
    ensures ParseParameter(cls, Some(input), hint)
         == Throw(Runtime, FailureMessage(Trim(input), EffectiveType(cls, hint),
                                          Exc(Runtime, Some("Unsupported parameter type: " + cls.name))))
  {
    TrimIdempotent(input);
  }

  /**
   * `ListNode` has a case of its own, whose parser is a stub: with that hint,
   * or a parameter class of that simple name and no hint, every input other
   * than null throws, wrapped as the `catch` of `parseParameter` wraps it.
   */
  lemma {:induction false} ListNodeAlwaysThrows(cls: JavaClass, input: string, hint: Option<string>)
    requires Trim(input) != "null"
    requires EffectiveType(cls, hint) == "ListNode"
    ensures ParseParameter(cls, Some(input), hint)
         == Throw(Runtime, FailureMessage(Trim(input), "ListNode",
                                          Exc(Runtime, Some("ListNode parsing not yet implemented"))))
  {
  }

  /** Without a hint, the parameter's simple name decides, exactly as if it had been given as the hint. */
  lemma {:induction false} SimpleNameIsHint(cls: JavaClass, input: Option<string>)
    ensures ParseParameter(cls, input, None) == ParseParameter(cls, input, Some(cls.simpleName))
  {
  }

  /** The characters `List.toString` writes for one `Integer` element: none of them cuts or brackets. */
  lemma {:induction false} ElementPlain(x: Option<int>, lead: string)
    requires lead == "" || lead == " "
    ensures var p := lead + TreeCodec.ElementString(x);
      forall i :: 0 <= i < |p| ==> Scanner.Plain(p[i])
  {
    var e := TreeCodec.ElementString(x);
    var p := lead + e;
    if x.Some? {
      TreeCodec.IntStringChars(x.value);
    }
    forall i | 0 <= i < |p|
      ensures Scanner.Plain(p[i])
    {
      if i >= |lead| {
        assert p[i] == e[i - |lead|];
      }
    }
  }

  /** An `Integer` element as `List.toString` writes it reads back as that element. */
  lemma {:induction false} IntegerElementString(x: Option<int>, lead: string)
    requires lead == "" || lead == " "
    requires x.Some? ==> INT_MIN <= x.value <= INT_MAX
    ensures IntegerElementValue(lead + TreeCodec.ElementString(x)) == Ok(Boxed(x))
    ensures x.Some? ==> IntElementValue(lead + TreeCodec.ElementString(x)) == Ok(Int(x.value))
  {
    TreeCodec.ParseElementString(x, lead);
  }

  /** A Java `Integer`: its value, or null. */
  function Boxed(x: Option<int>): Value
  {
    if x.Some? then Int(x.value) else Null
  }

  /** Every element boxed. */
  function BoxedAll(v: seq<Option<int>>): (items: seq<Value>)
    ensures |items| == |v| && forall i :: 0 <= i < |v| ==> items[i] == Boxed(v[i])
  {
    seq(|v|, i requires 0 <= i < |v| => Boxed(v[i]))
  }

  /** The inside of `List.toString` splits back into its elements as written, trimmed. */
  lemma {:induction false} SplitListString(v: seq<Option<int>>)
    requires v != []
    ensures var items := TreeCodec.ListItems(v);
      Scanner.SplitTop(Scanner.Nested, Join(items, ',')) == Scanner.TrimAll(items)
  {
    var items := TreeCodec.ListItems(v);
    forall i | 0 <= i < |items|
      ensures Scanner.Clean(Scanner.Nested, items[i])
    {
      ElementPlain(v[i], if i == 0 then "" else " ");
      Scanner.CleanPlain(Scanner.Nested, items[i]);
    }
    Scanner.SplitJoined(Scanner.Nested, items);
  }

  /** `List.toString` text is bracketed around the joined element texts. */
  lemma {:induction false} ListStringInside(v: seq<Option<int>>)
    ensures var s := TreeCodec.ListString(v);
      Bracketed(s) && |s| >= 2 && s[1..|s| - 1] == Join(TreeCodec.ListItems(v), ',')
  {
    var s := TreeCodec.ListString(v);
    assert s == "[" + Join(TreeCodec.ListItems(v), ',') + "]";
    assert s[..1] == "[" && s[|s| - 1..] == "]";
  }

  /** An element text starts and ends with a character `trim` keeps. */
  lemma {:induction false} ElementEnds(x: Option<int>)
    ensures var e := TreeCodec.ElementString(x);
      e != [] && !IsTrimmable(e[0]) && !IsTrimmable(e[|e| - 1])
  {
    if x.Some? {
      TreeCodec.IntStringChars(x.value);
    } else {
      var e := "null";
      assert e[0] == 'n' && e[3] == 'l';
    }
  }

  /** The joined element texts have no blank at either end. */
  lemma {:induction false} ListItemsTrimmed(v: seq<Option<int>>)
    ensures var content := Join(TreeCodec.ListItems(v), ','); Trim(content) == content
  {
    var items := TreeCodec.ListItems(v);
    var content := Join(items, ',');
    if v != [] {
      assert content != [] && !IsTrimmable(content[0]) by {
        ElementEnds(v[0]);
        assert items[0] == TreeCodec.ElementString(v[0]);
        JoinFirst(items, ',');
      }
      assert !IsTrimmable(content[|content| - 1]) by {
        var le := TreeCodec.ElementString(v[|v| - 1]);
        ElementEnds(v[|v| - 1]);
        var last := items[|items| - 1];
        assert last == (if |v| == 1 then "" else " ") + le;
        assert last[|last| - 1] == le[|le| - 1];
        JoinLast(items, ',');
      }
      TrimOfTrimmed(content);
    }
  }

  /** The pieces an array parser reads from `List.toString` text are its element texts. */
  lemma {:induction false} ListStringParts(v: seq<Option<int>>)
    ensures Bracketed(TreeCodec.ListString(v))
    ensures ArrayParts(TreeCodec.ListString(v)) == Scanner.TrimAll(TreeCodec.ListItems(v))
  {
    ListStringInside(v);
    ListItemsTrimmed(v);
    if v != [] {
      SplitListString(v);
    }
  }

  /** Each element text of `List.toString`, trimmed, reads back as its element. */
  lemma {:induction false} IntegerPieces(k: Element, v: seq<Option<int>>)
    requires k == IntElement || k == IntegerElement
    requires TreeCodec.IntSlots(v)
    requires k == IntElement ==> forall i :: 0 <= i < |v| ==> v[i].Some?
    ensures var parts := Scanner.TrimAll(TreeCodec.ListItems(v));
      forall i :: 0 <= i < |parts| ==> ParseElement(k, parts[i]) == Ok(BoxedAll(v)[i])
  {
    var items := TreeCodec.ListItems(v);
    var parts := Scanner.TrimAll(items);
    Scanner.TrimAllAt(items);
    forall i | 0 <= i < |parts|
      ensures ParseElement(k, parts[i]) == Ok(BoxedAll(v)[i])
    {
      TrimmedElementParses(k, v[i], if i == 0 then "" else " ");
    }
  }

  /** One element text of `List.toString`, trimmed, reads back as the element. */
  lemma {:induction false} TrimmedElementParses(k: Element, x: Option<int>, lead: string)
    requires k == IntElement || k == IntegerElement
    requires lead == "" || lead == " "
    requires x.Some? ==> INT_MIN <= x.value <= INT_MAX
    requires k == IntElement ==> x.Some?
    ensures ParseElement(k, Trim(lead + TreeCodec.ElementString(x))) == Ok(Boxed(x))
  {
    var p := lead + TreeCodec.ElementString(x);
    IntegerElementString(x, lead);
    TrimIdempotent(p);
    if k == IntElement {
      assert ParseElement(k, Trim(p)) == IntElementValue(Trim(p));
    } else {
      assert ParseElement(k, Trim(p)) == IntegerElementValue(Trim(p));
    }
  }

  /**
   * `Integer[]` undoes `List.toString`: the text `[1, null, 3]` written for a
   * list of 32-bit integers and nulls parses back to those elements.
   */
  lemma {:induction false} IntegerArrayRoundTrip(v: seq<Option<int>>)
    requires TreeCodec.IntSlots(v)
    ensures Array1D(IntegerElement, TreeCodec.ListString(v)) == Ok(Array(IntegerArr, BoxedAll(v)))
  {
    var parts := Scanner.TrimAll(TreeCodec.ListItems(v));
    ListStringParts(v);
    IntegerPieces(IntegerElement, v);
    MapParseEach((p: string) => ParseElement(IntegerElement, p), parts, BoxedAll(v));
  }

  /** `int[]` undoes `Arrays.toString`: `[1, 2, 3]` parses back to those 32-bit values. */
  lemma {:induction false} IntArrayRoundTrip(v: seq<Option<int>>)
    requires TreeCodec.IntSlots(v) && forall i :: 0 <= i < |v| ==> v[i].Some?
    ensures Array1D(IntElement, TreeCodec.ListString(v)) == Ok(Array(IntArr, BoxedAll(v)))
  {
    var parts := Scanner.TrimAll(TreeCodec.ListItems(v));
    ListStringParts(v);
    IntegerPieces(IntElement, v);
    MapParseEach((p: string) => ParseElement(IntElement, p), parts, BoxedAll(v));
  }

  /** No character of `List.toString` text brackets, quotes or escapes, apart from the outer brackets. */
  lemma {:induction false} ListStringChars(v: seq<Option<int>>)
    ensures Scanner.RowBody(Join(TreeCodec.ListItems(v), ','))
    ensures '"' !in TreeCodec.ListString(v) && '\\' !in TreeCodec.ListString(v)
  {
    var items := TreeCodec.ListItems(v);
    forall i | 0 <= i < |items|
      ensures '[' !in items[i] && ']' !in items[i] && '"' !in items[i] && '\\' !in items[i]
    {
      ElementPlain(v[i], if i == 0 then "" else " ");
    }
    JoinExcludes(items, ',', '[');
    JoinExcludes(items, ',', ']');
    JoinExcludes(items, ',', '"');
    JoinExcludes(items, ',', '\\');
    assert TreeCodec.ListString(v) == "[" + Join(items, ',') + "]";
  }

  /** A string element written between quotes. */
  function Quote(x: string): string
  {
    "\"" + x + "\""
  }

  function Quoted(xs: seq<string>): (qs: seq<string>)
    ensures |qs| == |xs| && forall i :: 0 <= i < |xs| ==> qs[i] == Quote(xs[i])
  {
    seq(|xs|, i requires 0 <= i < |xs| => Quote(xs[i]))
  }

  /** Strings with no quote and no backslash in them: what a quoted literal can hold without escapes. */
  predicate Unescaped(xs: seq<string>)
  {
    forall i :: 0 <= i < |xs| ==> '"' !in xs[i] && '\\' !in xs[i]
  }

  function Strs(xs: seq<string>): (vs: seq<Value>)
    ensures |vs| == |xs| && forall i :: 0 <= i < |xs| ==> vs[i] == Str(xs[i])
  {
    seq(|xs|, i requires 0 <= i < |xs| => Str(xs[i]))
  }

  /** `["a","b,c"]`: quoted strings joined by commas, the form the test files write. */
  function StringArrayText(xs: seq<string>): string
  {
    "[" + Join(Quoted(xs), ',') + "]"
  }

  lemma {:induction false} QuoteTrimmed(x: string)
    ensures Trim(Quote(x)) == Quote(x)
  {
    TrimOfTrimmed(Quote(x));
  }

  /** Quoted strings joined by commas: no blank at either end, and split back at the commas between them. */
  lemma {:induction false} QuotedJoinSplits(xs: seq<string>)
    requires xs != [] && Unescaped(xs)
    ensures var content := Join(Quoted(xs), ',');
      content != [] && Trim(content) == content && Scanner.SplitTop(Scanner.Nested, content) == Quoted(xs)
  {
    var qs := Quoted(xs);
    var content := Join(qs, ',');
    assert content != [] && Trim(content) == content by {
      assert qs[0] == Quote(xs[0]) && qs[|qs| - 1] == Quote(xs[|xs| - 1]);
      JoinFirst(qs, ',');
      JoinLast(qs, ',');
      TrimOfTrimmed(content);
    }
    assert Scanner.SplitTop(Scanner.Nested, content) == Scanner.TrimAll(qs) by {
      forall i | 0 <= i < |qs|
        ensures Scanner.Clean(Scanner.Nested, qs[i])
      {
        Scanner.CleanQuoted(Scanner.Nested, xs[i]);
      }
      Scanner.SplitJoined(Scanner.Nested, qs);
    }
    assert Scanner.TrimAll(qs) == qs by {
      Scanner.TrimAllAt(qs);
      forall i | 0 <= i < |qs|
        ensures Scanner.TrimAll(qs)[i] == qs[i]
      {
        QuoteTrimmed(xs[i]);
      }
    }
  }

  /** The pieces `String[]` reads from a list of quoted strings are those quoted strings. */
  lemma {:induction false} StringArrayParts(xs: seq<string>)
    requires Unescaped(xs)
    ensures Bracketed(StringArrayText(xs))
    ensures ArrayParts(StringArrayText(xs)) == Quoted(xs)
  {
    var content := Join(Quoted(xs), ',');
    var s := StringArrayText(xs);
    assert s[..1] == "[" && s[|s| - 1..] == "]";
    assert s[1..|s| - 1] == content;
    if xs != [] {
      QuotedJoinSplits(xs);
    } else {
      assert content == [];
    }
  }

  /** `String[]` reads back a list of quoted strings, commas and brackets inside the quotes included. */
  lemma {:induction false} StringArrayRoundTrip(xs: seq<string>)
    requires Unescaped(xs)
    ensures Array1D(StringElement, StringArrayText(xs)) == Ok(Array(StringArr, Strs(xs)))
  {
    var qs := Quoted(xs);
    StringArrayParts(xs);
    forall i | 0 <= i < |qs|
      ensures ParseElement(StringElement, qs[i]) == Ok(Strs(xs)[i])
    {
      QuoteTrimmed(xs[i]);
      StringValueQuoted(qs[i], xs[i]);
    }
    MapParseEach((p: string) => ParseElement(StringElement, p), qs, Strs(xs));
  }

  /** The texts `List.toString` writes for each row. */
  function RowTexts(rows: seq<seq<Option<int>>>): (ts: seq<string>)
    ensures |ts| == |rows| && forall i :: 0 <= i < |rows| ==> ts[i] == TreeCodec.ListString(rows[i])
  {
    seq(|rows|, i requires 0 <= i < |rows| => TreeCodec.ListString(rows[i]))
  }

  /** `[[1, 2],[3, 4]]`: each row written by `List.toString`, the rows joined by commas. */
  function MatrixText(rows: seq<seq<Option<int>>>): string
  {
    "[" + Join(RowTexts(rows), ',') + "]"
  }

  /** The insides of the rows, so that the rows are those insides bracketed. */
  function RowBodies(rows: seq<seq<Option<int>>>): (bodies: seq<string>)
    ensures |bodies| == |rows| && Scanner.Bracket(bodies) == RowTexts(rows)
  {
    var bodies := seq(|rows|, i requires 0 <= i < |rows| => Join(TreeCodec.ListItems(rows[i]), ','));
    assert forall i :: 0 <= i < |rows| ==> Scanner.Bracket(bodies)[i] == RowTexts(rows)[i];
    bodies
  }

  /** Every row of 32-bit integers, no nulls: what `int[][]` can hold. */
  predicate IntRows(rows: seq<seq<Option<int>>>)
  {
    forall i :: 0 <= i < |rows| ==> TreeCodec.IntSlots(rows[i]) && forall j :: 0 <= j < |rows[i]| ==> rows[i][j].Some?
  }

  /** The rows `int[][]` reads from a matrix text are the row texts. */
  lemma {:induction false} MatrixRows(rows: seq<seq<Option<int>>>)
    requires rows != []
    ensures DoublyBracketed(MatrixText(rows))
    ensures GridRows(MatrixText(rows)) == RowTexts(rows)
  {
    var content := Join(RowTexts(rows), ',');
    var s := MatrixText(rows);
    MatrixShape(rows);
    assert Trim(s[1..|s| - 1]) == content by {
      TrimOfTrimmed(content);
    }
    MatrixContentSplits(rows);
  }

  /** The row texts joined by commas start with `[` and end with `]`. */
  lemma {:induction false} MatrixContentEnds(rows: seq<seq<Option<int>>>)
    requires rows != []
    ensures var content := Join(RowTexts(rows), ',');
      content != [] && content[0] == '[' && content[|content| - 1] == ']'
  {
    var ts := RowTexts(rows);
    var bodies := RowBodies(rows);
    assert ts[0] == "[" + bodies[0] + "]";
    assert ts[|ts| - 1] == "[" + bodies[|ts| - 1] + "]";
    JoinFirst(ts, ',');
    JoinLast(ts, ',');
  }

  /** A matrix text is in `[[...]]`, and inside its outer brackets are the joined rows. */
  lemma {:induction false} MatrixShape(rows: seq<seq<Option<int>>>)
    requires rows != []
    ensures DoublyBracketed(MatrixText(rows))
    ensures var s := MatrixText(rows); |s| >= 2 && s[1..|s| - 1] == Join(RowTexts(rows), ',')
  {
    MatrixContentEnds(rows);
    BracketedRows(Join(RowTexts(rows), ','));
  }

  /** Rows in brackets, with `[` first and `]` last, are in `[[...]]`. */
  lemma {:induction false} BracketedRows(content: string)
    requires content != [] && content[0] == '[' && content[|content| - 1] == ']'
    ensures var s := "[" + content + "]"; DoublyBracketed(s) && s[1..|s| - 1] == content
  {
    var s := "[" + content + "]";
    assert s[..2] == "[[" && s[|s| - 2..] == "]]";
    assert s[1..|s| - 1] == content;
  }

  /** The joined rows split back into the row texts. */
  lemma {:induction false} MatrixContentSplits(rows: seq<seq<Option<int>>>)
    ensures Scanner.SplitRows(Join(RowTexts(rows), ',')) == RowTexts(rows)
  {
    var bodies := RowBodies(rows);
    forall i | 0 <= i < |bodies|
      ensures Scanner.RowBody(bodies[i])
    {
      ListStringChars(rows[i]);
    }
    Scanner.RowsJoin(bodies);
  }

  /** Every 32-bit integer row, boxed. */
  function IntArrays(rows: seq<seq<Option<int>>>): (vs: seq<Value>)
    ensures |vs| == |rows| && forall i :: 0 <= i < |rows| ==> vs[i] == Array(IntArr, BoxedAll(rows[i]))
  {
    seq(|rows|, i requires 0 <= i < |rows| => Array(IntArr, BoxedAll(rows[i])))
  }

  /** `int[][]` reads back a non-empty matrix written row by row. */
  lemma {:induction false} IntMatrixRoundTrip(rows: seq<seq<Option<int>>>)
    requires rows != [] && IntRows(rows)
    ensures Array2D(IntGrid, MatrixText(rows)) == Ok(Array(Int2D, IntArrays(rows)))
  {
    var ts := RowTexts(rows);
    MatrixRows(rows);
    forall i | 0 <= i < |ts|
      ensures Array1D(IntElement, ts[i]) == Ok(IntArrays(rows)[i])
    {
      IntArrayRoundTrip(rows[i]);
    }
    MapParseEach((row: string) => Array1D(RowElement(IntGrid), row), ts, IntArrays(rows));
  }

  /** Text that starts with a bracket is its own trim, and is nobody's `null`. */
  lemma {:induction false} BracketedInput(s: string)
    requires Bracketed(s)
    ensures Trim(s) == s && s != "null"
  {
    BracketedLength(s);
    TrimOfTrimmed(s);
  }

  /** A parse that succeeds under `parseParameter` is the effective type's own parse of the trimmed text. */
  lemma {:induction false} ParameterIs(cls: JavaClass, s: string, hint: string, tag: Option<TypeName>, v: Value)
    requires Trim(s) == s && s != "null"
    requires CaseOf(hint) == tag && Dispatch(tag, cls, s) == Ok(v)
    ensures ParseParameter(cls, Some(s), Some(hint)) == Ok(v)
  {
  }

  // The cases of the `switch` the round trips below go through, each on its own.

  lemma {:induction false} DispatchIntArray(cls: JavaClass)
    ensures Parser(Some(IntArrayName), cls) == ParseIntArray
  {
  }

  lemma {:induction false} DispatchIntegerArray(cls: JavaClass)
    ensures Parser(Some(IntegerArrayName), cls) == ParseIntegerArray
  {
  }

  lemma {:induction false} DispatchIntegerList(cls: JavaClass)
    ensures Parser(Some(IntegerListName), cls) == ParseIntegerList
  {
  }

  lemma {:induction false} DispatchIntMatrix(cls: JavaClass)
    ensures Parser(Some(IntMatrixName), cls) == ParseInt2DArray
  {
  }

  lemma {:induction false} DispatchIntegerListList(cls: JavaClass)
    ensures Parser(Some(IntegerListListName), cls) == ParseIntegerListList
  {
  }

  lemma {:induction false} DispatchTree(cls: JavaClass)
    ensures Parser(Some(TreeNodeName), cls) == TreeOf
  {
  }

  /** The case labels the round trips below go through. */
  lemma {:induction false} CaseOfArrays()
    ensures CaseOf("int[]") == Some(IntArrayName)
    ensures CaseOf("Integer[]") == Some(IntegerArrayName)
    ensures CaseOf("List<Integer>") == Some(IntegerListName)
  {
  }

  lemma {:induction false} CaseOfMatrices()
    ensures CaseOf("int[][]") == Some(IntMatrixName)
    ensures CaseOf("List<List<Integer>>") == Some(IntegerListListName)
  {
  }

  lemma {:induction false} CaseOfTree()
    ensures CaseOf("TreeNode") == Some(TreeNodeName)
  {
  }

  /**
   * Through `parseParameter`: the text `List.toString` writes for a list of
   * 32-bit integers and nulls is read back under `Integer[]` and
   * `List<Integer>`, and under `int[]` when it holds no null.
   */
  lemma {:induction false} ListParameterRoundTrip(cls: JavaClass, v: seq<Option<int>>)
    requires TreeCodec.IntSlots(v)
    ensures ParseParameter(cls, Some(TreeCodec.ListString(v)), Some("Integer[]")) == Ok(Array(IntegerArr, BoxedAll(v)))
    ensures ParseParameter(cls, Some(TreeCodec.ListString(v)), Some("List<Integer>")) == Ok(List(BoxedAll(v)))
    ensures (forall i :: 0 <= i < |v| ==> v[i].Some?) ==>
      ParseParameter(cls, Some(TreeCodec.ListString(v)), Some("int[]")) == Ok(Array(IntArr, BoxedAll(v)))
  {
    var s := TreeCodec.ListString(v);
    ListStringParts(v);
    BracketedInput(s);
    CaseOfArrays();
    DispatchIntegerArray(cls);
    DispatchIntegerList(cls);
    DispatchIntArray(cls);
    IntegerArrayRoundTrip(v);
    ParameterIs(cls, s, "Integer[]", Some(IntegerArrayName), Array(IntegerArr, BoxedAll(v)));
    ParameterIs(cls, s, "List<Integer>", Some(IntegerListName), List(BoxedAll(v)));
    if forall i :: 0 <= i < |v| ==> v[i].Some? {
      IntArrayRoundTrip(v);
      ParameterIs(cls, s, "int[]", Some(IntArrayName), Array(IntArr, BoxedAll(v)));
    }
  }

  /** Through `parseParameter`: a non-empty matrix text is read back under `int[][]` and `List<List<Integer>>`. */
  lemma {:induction false} MatrixParameterRoundTrip(cls: JavaClass, rows: seq<seq<Option<int>>>)
    requires rows != [] && IntRows(rows)
    ensures ParseParameter(cls, Some(MatrixText(rows)), Some("int[][]")) == Ok(Array(Int2D, IntArrays(rows)))
    ensures ParseParameter(cls, Some(MatrixText(rows)), Some("List<List<Integer>>"))
         == Ok(List(RowLists(IntArrays(rows))))
  {
    var s := MatrixText(rows);
    MatrixRows(rows);
    DoublyBracketedLength(s);
    BracketedInput(s);
    CaseOfMatrices();
    IntMatrixRoundTrip(rows);
    DispatchIntMatrix(cls);
    DispatchIntegerListList(cls);
    ParameterIs(cls, s, "int[][]", Some(IntMatrixName), Array(Int2D, IntArrays(rows)));
    ParameterIs(cls, s, "List<List<Integer>>", Some(IntegerListListName), List(RowLists(IntArrays(rows))));
  }

  /** `TreeNode` reads back the text `TreeNode.toString` writes, for a tree of 32-bit values. */
  lemma {:induction false} TreeParameterRoundTrip(cls: JavaClass, t: TreeCodec.Tree)
    requires TreeCodec.IntValues(t)
    ensures ParseParameter(cls, Some(TreeCodec.TreeString(t)), Some("TreeNode")) == Ok(TreeValue(t))
  {
    var s := TreeCodec.TreeString(t);
    ListStringParts(TreeCodec.ToArraySpec(t));
    BracketedInput(s);
    ListStringChars(TreeCodec.ToArraySpec(t));
    BracketedLength(s);
    UnescapePlain(s);
    assert Unquoted(s) == Ok(s);
    TreeCodec.TreeStringRoundTrip(t);
    CaseOfTree();
    DispatchTree(cls);
    ParameterIs(cls, s, "TreeNode", Some(TreeNodeName), TreeValue(t));
  }
}
