/** src/internal/utils/concat-class-names.ts: `cx`, the variadic class-name join. */
module ClassNames {
  import opened Wrappers
  import opened JsText

  /** One argument of `cx`: a string, a boolean, `null` or `undefined`. */
  datatype ClassArg = Text(s: string) | Flag(b: bool) | Null | Undefined

  /** Only a non-empty string contributes; booleans, `null` and `undefined` are skipped. */
  predicate Contributes(a: ClassArg) {
    a.Text? && a.s != ""
  }

  /** The trimmed text of every contributing argument, in argument order. */
  function Pieces(args: seq<ClassArg>): (r: seq<string>)
    ensures |r| <= |args|
  {
    if args == [] then []
    else
      var last := args[|args| - 1];
      Pieces(args[..|args| - 1]) + (if Contributes(last) then [Trim(last.s)] else [])
  }

  /** Every piece is trimmed; no contributing argument means no pieces. */
  lemma {:induction false} PiecesAreTrimmed(args: seq<ClassArg>)
    ensures forall i :: 0 <= i < |Pieces(args)| ==> Trimmed(Pieces(args)[i])
    ensures (forall i :: 0 <= i < |args| ==> !Contributes(args[i])) ==> Pieces(args) == []
  {
    if args != [] {
      var init := args[..|args| - 1];
      PiecesAreTrimmed(init);
      assert forall i :: 0 <= i < |init| ==> init[i] == args[i];
    }
  }

  /** The class list `cx` denotes: the pieces joined by spaces, with outer whitespace removed. */
  function ClassList(args: seq<ClassArg>): (r: string)
    ensures Trimmed(r)
  {
    Trim(Join(" ", Pieces(args)))
  }

  method Cx(args: seq<ClassArg>) returns (r: string)
    ensures r == ClassList(args)
  {
    var result := "";
    for i := 0 to |args|
      invariant result == Spaced(Pieces(args[..i]))
    {
      var className := args[i];
      SpacedStep(args, i);
      if className.Text? && className.s != "" {
        result := result + " ";
        result := result + Trim(className.s);
      }
    }
    assert args[..|args|] == args;
    TrimLeadingSpace(Join(" ", Pieces(args)));
    r := Trim(result);
  }

  /** The loop's running text: each piece preceded by one space. */
  function Spaced(pieces: seq<string>): string {
    if pieces == [] then "" else " " + Join(" ", pieces)
  }

  lemma {:induction false} SpacedStep(args: seq<ClassArg>, i: nat)
    requires i < |args|
    ensures Spaced(Pieces(args[..i + 1])) ==
              Spaced(Pieces(args[..i])) + (if Contributes(args[i]) then " " + Trim(args[i].s) else "")
  {
    var before := Pieces(args[..i]);
    assert args[..i + 1][..i] == args[..i] && args[..i + 1][i] == args[i];
    if Contributes(args[i]) {
      var t := Trim(args[i].s);
      assert Pieces(args[..i + 1]) == before + [t];
      JoinAppend(" ", before, t);
    } else {
      assert Pieces(args[..i + 1]) == before;
    }
  }

  /** Joining non-empty trimmed pieces leaves nothing to trim at either end. */
  lemma {:induction false} JoinOfTrimmedIsTrimmed(pieces: seq<string>)
    requires forall i :: 0 <= i < |pieces| ==> pieces[i] != [] && Trimmed(pieces[i])
    ensures Trimmed(Join(" ", pieces))
    ensures pieces != [] ==> Join(" ", pieces) != []
  {
    if |pieces| > 1 {
      JoinOfTrimmedIsTrimmed(pieces[1..]);
      var rest := Join(" ", pieces[1..]);
      assert (pieces[0] + " " + rest)[0] == pieces[0][0];
    }
  }

  /** When no contributing argument is blank, the pieces appear separated by single spaces. */
  lemma ClassListOfNonBlankPieces(args: seq<ClassArg>)
    requires forall i :: 0 <= i < |Pieces(args)| ==> Pieces(args)[i] != []
    ensures ClassList(args) == Join(" ", Pieces(args))
  {
    PiecesAreTrimmed(args);
    JoinOfTrimmedIsTrimmed(Pieces(args));
    TrimOfTrimmed(Join(" ", Pieces(args)));
  }

  /** A single string argument yields that string trimmed. */
  lemma ClassListOfOne(s: string)
    ensures ClassList([Text(s)]) == Trim(s)
  {
    assert [Text(s)][..0] == [];
    TrimOfTrimmed(Trim(s));
  }

  /** The argument a caller's optional class name becomes. */
  function CallerArg(className: Option<string>): ClassArg {
    if className.Some? then Text(className.value) else Undefined
  }

  /** What a caller's class name adds after the fixed classes. */
  function CallerSuffix(className: Option<string>): string {
    if className.Some? && Trim(className.value) != "" then " " + Trim(className.value) else ""
  }

  /**
   * A caller's class name after fixed, non-blank classes adds a single space
   * and its trimmed text, or nothing when it is absent or blank.
   */
  lemma {:induction false} ClassListWithCaller(args: seq<ClassArg>, className: Option<string>)
    requires Pieces(args) != []
    requires forall i :: 0 <= i < |Pieces(args)| ==> Pieces(args)[i] != []
    ensures ClassList(args + [CallerArg(className)]) == Join(" ", Pieces(args)) + CallerSuffix(className)
  {
    var all := args + [CallerArg(className)];
    var p := Pieces(args);
    PiecesAreTrimmed(args);
    assert all[..|all| - 1] == args;
    if Contributes(CallerArg(className)) {
      var t := Trim(className.value);
      assert Pieces(all) == p + [t];
      AppendPiece(p, t);
    } else {
      assert Pieces(all) == p;
      JoinOfTrimmedIsTrimmed(p);
      TrimOfTrimmed(Join(" ", p));
    }
  }

  lemma {:induction false} AppendPiece(p: seq<string>, t: string)
    requires p != [] && Trimmed(t)
    requires forall i :: 0 <= i < |p| ==> p[i] != [] && Trimmed(p[i])
    ensures Trim(Join(" ", p + [t])) == Join(" ", p) + (if t == "" then "" else " " + t)
  {
    var j := Join(" ", p);
    JoinAppend(" ", p, t);
    assert Join(" ", p + [t]) == j + " " + t;
    JoinOfTrimmedIsTrimmed(p);
    TrimOfTrimmed(j);
    if t == "" {
      assert j + " " + t == j + " ";
      TrimTrailingSpace(j);
    } else {
      assert forall i :: 0 <= i < |p + [t]| ==> (p + [t])[i] != [] && Trimmed((p + [t])[i]);
      JoinOfTrimmedIsTrimmed(p + [t]);
      TrimOfTrimmed(Join(" ", p + [t]));
    }
  }

  /** `flag && name` as an argument of `cx`. */
  function Optional(flag: bool, name: string): ClassArg {
    if flag then Text(name) else Flag(false)
  }

  /** A fixed, non-blank, trimmed class is its own piece. */
  lemma PiecesOfOne(a: string)
    requires a != "" && Trimmed(a)
    ensures Pieces([Text(a)]) == [a]
  {
    assert [Text(a)][..0] == [];
    TrimOfTrimmed(a);
  }

  /** A fixed class followed by an optional one. */
  lemma PiecesOfTwo(a: string, b: string, useB: bool, args: seq<ClassArg>)
    requires a != "" && b != "" && Trimmed(a) && Trimmed(b)
    requires args == [Text(a), Optional(useB, b)]
    ensures Pieces(args) == [a] + (if useB then [b] else [])
  {
    assert args[..1] == [Text(a)];
    PiecesOfOne(a);
    TrimOfTrimmed(b);
  }

  /** A fixed class followed by two optional ones. */
  lemma PiecesOfThree(a: string, b: string, c: string, useB: bool, useC: bool, args: seq<ClassArg>)
    requires a != "" && b != "" && c != ""
    requires Trimmed(a) && Trimmed(b) && Trimmed(c)
    requires args == [Text(a), Optional(useB, b), Optional(useC, c)]
    ensures Pieces(args) == [a] + (if useB then [b] else []) + (if useC then [c] else [])
  {
    PiecesOfTwo(a, b, useB, args[..2]);
    TrimOfTrimmed(c);
  }

  lemma JoinOfTwo(a: string, b: string, useB: bool)
    ensures Join(" ", [a] + (if useB then [b] else [])) == a + (if useB then " " + b else "")
  {
    JoinAppend(" ", [a], b);
    if !useB {
      assert [a] + [] == [a];
    }
  }

  lemma JoinOfThree(a: string, b: string, c: string, useB: bool, useC: bool)
    ensures Join(" ", [a] + (if useB then [b] else []) + (if useC then [c] else []))
         == a + (if useB then " " + b else "") + (if useC then " " + c else "")
  {
    var two := [a] + (if useB then [b] else []);
    JoinOfTwo(a, b, useB);
    if useC {
      JoinAppend(" ", two, c);
    } else {
      assert two + [] == two;
    }
  }
}
