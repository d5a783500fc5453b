/**
 * The Java objects the harness passes around as `Object`: what a solution
 * returns, what the type parser builds and what the JSON reader produces.
 * `Show` is Java's `String.valueOf`, i.e. the object's own `toString`.
 */
module JavaValue {
  import opened Wrappers
  import JavaString
  import TreeCodec

  /** The array classes the harness builds or renders, by their JVM descriptor. */
  datatype ArrayKind =
    | IntArr | IntegerArr | LongArr | DoubleArr | CharArr | BooleanArr | StringArr
    | Int2D | Char2D | String2D | ObjectArr

  /** A Java value seen as `Object`; `Null` is Java `null`. */
  datatype Value =
    | Null
    | Int(i: int)                            // java.lang.Integer (a boxed int)
    | Long(l: int)                           // java.lang.Long
    | Double(text: string)                   // java.lang.Double, kept as the literal it was read from
    | Bool(b: bool)                          // java.lang.Boolean
    | Char(c: char)                          // java.lang.Character
    | Str(s: string)                         // java.lang.String
    | Tree(t: TreeCodec.Tree)                // a non-null TreeNode, by the tree it roots
    | List(items: seq<Value>)                // java.util.List
    | Map(entries: seq<(string, Value)>)     // java.util.Map with String keys, in iteration order
    | Array(kind: ArrayKind, items: seq<Value>)

  /** A `TreeNode` reference: `null` for the empty tree. */
  function TreeValue(t: TreeCodec.Tree): (v: Value)
    ensures v == Null <==> t == TreeCodec.Nil
  {
    if t.Nil? then Null else Tree(t)
  }

  /** The JVM name of an array class, which `Object.toString` prints before the identity hash. */
  function Descriptor(k: ArrayKind): string
  {
    match k
    case IntArr => "[I"
    case IntegerArr => "[Ljava.lang.Integer;"
    case LongArr => "[J"
    case DoubleArr => "[D"
    case CharArr => "[C"
    case BooleanArr => "[Z"
    case StringArr => "[Ljava.lang.String;"
    case Int2D => "[[I"
    case Char2D => "[[C"
    case String2D => "[[Ljava.lang.String;"
    case ObjectArr => "[Ljava.lang.Object;"
  }

  /** `instanceof Object[]`: arrays whose elements are references. */
  predicate IsObjectArray(k: ArrayKind)
  {
    k in {IntegerArr, StringArr, Int2D, Char2D, String2D, ObjectArr}
  }

  function BoolText(b: bool): string
  {
    if b then "true" else "false"
  }

  /** Parts joined by `", "`, as `AbstractCollection.toString` and `AbstractMap.toString` join them. */
  function CommaSpace(parts: seq<string>): (r: string)
    ensures parts == [] ==> r == ""
  {
    if parts == [] then ""
    else if |parts| == 1 then parts[0]
    else parts[0] + ", " + CommaSpace(parts[1..])
  }

  /** `String.valueOf(v)`. */
  function Show(v: Value): string
    decreases v, 1
  {
    match v
    case Null => "null"
    case Int(i) => JavaString.IntToString(i)
    case Long(l) => JavaString.IntToString(l)
    case Double(text) => text
    case Bool(b) => BoolText(b)
    case Char(c) => [c]
    case Str(s) => s
    case Tree(t) => TreeCodec.TreeString(t)
    case List(items) => "[" + CommaSpace(ShowAll(items)) + "]"
    case Map(entries) => "{" + CommaSpace(ShowEntries(entries)) + "}"
    case Array(k, _) => Descriptor(k) + "@"
  }

  function ShowAll(items: seq<Value>): (r: seq<string>)
    ensures |r| == |items|
    decreases items, 0
  {
    if items == [] then [] else [Show(items[0])] + ShowAll(items[1..])
  }

  function ShowEntries(entries: seq<(string, Value)>): (r: seq<string>)
    ensures |r| == |entries|
    decreases entries, 0
  {
    if entries == [] then []
    else
      var (key, value) := entries[0];
      assert value < entries[0];
      [key + "=" + Show(value)] + ShowEntries(entries[1..])
  }

  /** Each element of the list is shown by its own `toString`. */
  lemma {:induction false} ShowAllAt(items: seq<Value>, i: nat)
    requires i < |items|
    ensures ShowAll(items)[i] == Show(items[i])
  {
    if i > 0 {
      ShowAllAt(items[1..], i - 1);
    }
  }
}
