/**
 * `HelloWorldSolution.sayHello`: greets the name it is given, or the world
 * when the name is null or only whitespace.
 */
module HelloWorld {
  import opened Wrappers
  import JavaString

  const GREETING := "Hello, "
  const WORLD := "World"

  /** A name `trim` reduces to nothing: every character at or below a space. */
  predicate Blank(name: string)
  {
    forall i :: 0 <= i < |name| ==> JavaString.IsTrimmable(name[i])
  }

  /**
   * `sayHello(name)`: `"Hello, World!"` for null or blank names, otherwise
   * the name itself, untrimmed, between `"Hello, "` and `"!"`.
   */
  function SayHello(name: Option<string>): (r: string)
    ensures |r| >= |GREETING| + 1 && r[..|GREETING|] == GREETING && r[|r| - 1] == '!'
    ensures name.None? || Blank(name.value) ==> r == GREETING + WORLD + "!"
    ensures name.Some? && !Blank(name.value) ==> r == GREETING + name.value + "!"
  {
    JavaString.TrimEmptyIff(if name.Some? then name.value else "");
    if name.None? || JavaString.Trim(name.value) == [] then GREETING + WORLD + "!"
    else GREETING + name.value + "!"
  }

  /** The name greeted: what lies between the greeting and the closing `!`. */
  function Greeted(r: string): string
    requires |r| >= |GREETING| + 1
  {
    r[|GREETING|..|r| - 1]
  }

  /**
   * The greeting gives back the name it was given when that name is not
   * blank, and `"World"` otherwise; so two names that are not blank are
   * greeted alike only when they are equal.
   */
  lemma {:induction false} GreetedName(name: Option<string>)
    ensures Greeted(SayHello(name)) == if name.Some? && !Blank(name.value) then name.value else WORLD
  {
    var r := SayHello(name);
    var who := if name.Some? && !Blank(name.value) then name.value else WORLD;
    assert r == GREETING + who + "!";
    assert r[|GREETING|..|r| - 1] == who;
  }

  /** Distinct names that are not blank get distinct greetings. */
  lemma {:induction false} SayHelloInjective(a: string, b: string)
    requires !Blank(a) && !Blank(b) && a != b
    ensures SayHello(Some(a)) != SayHello(Some(b))
  {
    GreetedName(Some(a));
    GreetedName(Some(b));
  }
}
