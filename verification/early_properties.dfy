/**
 * Properties of the earliest front end and interpreter: the loop of `parse`,
 * the declaration that gives up on a wrong annotation, a run that never stops
 * early, the names a run defines, and what a program prints.
 */
module EarlyProperties {
  import opened Common
  import opened EarlySyntax
  import opened EarlyParser
  import opened EarlyRoundTrip
  import opened EarlyEnv
  import opened EarlyInterp

  // ------------------------------------------------------------------ parsing

  /**
   * A token that starts no statement gives `None` without consuming, so the
   * loop of `parse` is back in the same state: it spins. Every statement that
   * is dispatched reads at least one token before it returns.
   */
  lemma DispatchProgress(toks: seq<Token>, pos: nat, acc: seq<Statement>)
    requires pos < |toks|
    ensures !StartsStatement(toks[pos]) ==> ParseStatement(toks, pos) == NotFound(pos) && ParseFrom(toks, pos, acc) == Diverges(pos)
    ensures StartsStatement(toks[pos]) && !ParseStatement(toks, pos).Crash? ==> pos < ParseStatement(toks, pos).next
  {
  }

  /** A statement that gives up after reading is dropped, and `parse` resumes where the cursor stopped. */
  lemma NoneResumes(toks: seq<Token>, pos: nat, acc: seq<Statement>)
    requires pos < |toks| && ParseStatement(toks, pos).NotFound?
    requires ParseStatement(toks, pos).next != pos
    ensures ParseFrom(toks, pos, acc) == ParseFrom(toks, ParseStatement(toks, pos).next, acc)
  {
  }

  /** `var x = 1 ; EOF`: the end marker the scanner pushes starts no statement, so `parse` spins on it. */
  lemma EofSpins()
    ensures Parse([Token.Var, Token.Identifier("x"), Token.Assign, Token.NumberLiteral(1.0), Token.Semicolon, Token.EOF])
         == Diverges(5)
  {
    var toks := [Token.Var, Token.Identifier("x"), Token.Assign, Token.NumberLiteral(1.0), Token.Semicolon, Token.EOF];
    var s := VariableDeclaration("x", Expression.NumberLiteral(1.0), None);
    assert ParseStatement(toks, 0) == Found(s, 5);
    ProgramStep(toks, 0, [], s, 5);
    DispatchProgress(toks, 5, [s]);
  }

  /**
   * An annotation that is not one of the three type keywords makes the
   * declaration give up just after it, and `parse` carries on from there.
   */
  lemma BadAnnotation(toks: seq<Token>, pos: nat, acc: seq<Statement>)
    requires pos + 3 < |toks| && toks[pos] == Token.Var && toks[pos + 1].Identifier? && toks[pos + 2] == Token.Colon
    requires TypeOf(toks[pos + 3]).None?
    ensures ParseStatement(toks, pos) == NotFound(pos + 4)
    ensures ParseFrom(toks, pos, acc) == ParseFrom(toks, pos + 4, acc)
  {
    assert ParseStatement(toks, pos) == ParseVariableDeclaration(toks, pos);
  }

  /** An expression is one token: `x = a b ;` gives up at the second operand, which the next statement starts with. */
  lemma OneTokenExpressions(toks: seq<Token>, pos: nat)
    requires pos + 3 < |toks| && toks[pos].Identifier? && toks[pos + 1] == Token.Assign
    requires Atom(toks[pos + 2]) && toks[pos + 3] != Token.Semicolon
    ensures ParseStatement(toks, pos) == NotFound(pos + 4)
  {
    assert ParseStatement(toks, pos) == ParseVariableAssignment(toks, pos);
  }

  /** A declaration cut off after its name panics instead of giving `None`. */
  lemma TruncatedDeclarationPanics()
    ensures Parse([Token.Var, Token.Identifier("x")]) == Panics(2)
  {
    assert ParseStatement([Token.Var, Token.Identifier("x")], 0) == Crash(2);
  }

  // ------------------------------------------------------------------ running

  /** Running `ss` and then `ts` is running `ss + ts`: nothing stops a run early. */
  lemma {:induction false} RunAppend(show: real -> string, st: State, ss: seq<Statement>, ts: seq<Statement>)
    ensures Run(show, st, ss + ts) == Run(show, Run(show, st, ss), ts)
    decreases |ss|
  {
    if ss == [] {
      assert ss + ts == ts;
    } else {
      assert (ss + ts)[0] == ss[0] && (ss + ts)[1..] == ss[1..] + ts;
      RunAppend(show, Exec(show, st, ss[0]), ss[1..], ts);
    }
  }

  /** The names a sequence of statements declares. */
  function Declared(ss: seq<Statement>): set<string> {
    if ss == [] then {}
    else (if ss[0].VariableDeclaration? then {ss[0].name} else {}) + Declared(ss[1..])
  }

  /** After a run the store holds exactly the names it held before and the names declared: assignments never add one, nothing removes one. */
  lemma {:induction false} RunKeys(show: real -> string, st: State, ss: seq<Statement>)
    ensures Run(show, st, ss).env.Keys == st.env.Keys + Declared(ss)
    decreases |ss|
  {
    if ss != [] {
      RunKeys(show, Exec(show, st, ss[0]), ss[1..]);
    }
  }

  /** The output of a run extends the output before it; a run with no `print` prints nothing. */
  lemma {:induction false} RunOutput(show: real -> string, st: State, ss: seq<Statement>)
    ensures |st.out| <= |Run(show, st, ss).out| && Run(show, st, ss).out[..|st.out|] == st.out
    ensures (forall j :: 0 <= j < |ss| ==> !ss[j].Print?) ==> Run(show, st, ss).out == st.out
    decreases |ss|
  {
    if ss != [] {
      var st1 := Exec(show, st, ss[0]);
      RunOutput(show, st1, ss[1..]);
      assert Run(show, st, ss) == Run(show, st1, ss[1..]);
      assert st1.out[..|st.out|] == st.out;
      assert Run(show, st, ss).out[..|st1.out|][..|st.out|] == Run(show, st, ss).out[..|st.out|];
      if forall j :: 0 <= j < |ss| ==> !ss[j].Print? {
        assert !ss[0].Print?;
        assert forall j :: 0 <= j < |ss[1..]| ==> !ss[1..][j].Print?;
      }
    }
  }

  /**
   * An assignment to an undefined name changes nothing; an assignment to a
   * defined name stores the value whatever it was before and changes no
   * other name.
   */
  lemma AssignmentEffect(show: real -> string, st: State, n: string, e: Expression, ty: Option<Type>)
    ensures var r := Exec(show, st, VariableAssignment(n, e, ty));
            && (n !in st.env ==> r == st)
            && (n in st.env ==> r == State(st.env[n := Evaluate(st.env, e)], st.out))
  {
  }

  /** An error does not stop the run: a `print` after an assignment to an undefined name still prints. */
  lemma ErrorDoesNotStop(show: real -> string, st: State, n: string, e: Expression, v: Expression)
    requires n !in st.env
    ensures Run(show, st, [VariableAssignment(n, e, None), Statement.Print(v)])
         == State(st.env, st.out + Display(show, Evaluate(st.env, v)))
  {
    var ss := [VariableAssignment(n, e, None), Statement.Print(v)];
    assert ss[1..] == [Statement.Print(v)] && ss[1..][1..] == [];
    assert Exec(show, st, ss[0]) == st;
    assert Run(show, st, ss) == Run(show, st, ss[1..]);
  }

  /**
   * No type check: `var x : Int = 1 ; x = "a" ; print ( x ) ;` is read back as
   * its three statements and prints `a`, although `x` was declared `Int`.
   */
  lemma AnnotationIgnored(show: real -> string)
    ensures var prog := [VariableDeclaration("x", Expression.NumberLiteral(1.0), Some(Type.Int)),
                         VariableAssignment("x", Expression.StringLiteral("a"), None),
                         Statement.Print(Expression.Identifier("x"))];
            && Parse(RenderStatements(prog)) == Returned(Ok(prog))
            && Interpret(show, prog).out == "a"
  {
    var prog := [VariableDeclaration("x", Expression.NumberLiteral(1.0), Some(Type.Int)),
                 VariableAssignment("x", Expression.StringLiteral("a"), None),
                 Statement.Print(Expression.Identifier("x"))];
    ProgramRoundTrip(prog);
    var st1 := Exec(show, State(map[], ""), prog[0]);
    var st2 := Exec(show, st1, prog[1]);
    assert st2.env["x"] == Value.StringLiteral("a");
    assert prog[1..][1..] == [prog[2]];
    assert Interpret(show, prog) == Run(show, st2, [prog[2]]);
  }
}
