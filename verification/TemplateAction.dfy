/**
  Actions of `data_template.rs`: the tokens between a pair of template delimiters are a
  control keyword with its pipeline, an assignment, or a plain pipeline.
 */
module TemplateAction {
  import opened Common
  import opened TemplatePipeline

  /** Loop variables: `range $v :=` or `range $i, $v :=`. */
  datatype RangeVars = NoVars | OneVar(v: string) | TwoVars(i: string, v: string)

  /** `ParsedAction`; an empty `assign` is a plain pipeline. */
  datatype Action =
    | End
    | Else
    | ElseIf(cond: Pipeline)
    | If(cond: Pipeline)
    | Range(vars: RangeVars, over: Pipeline)
    | Run(assign: seq<string>, body: Pipeline)

  predicate IsWord(t: Token, word: string) {
    t.Ident? && t.id == word
  }

  predicate Keyword(word: string) {
    word == "end" || word == "else" || word == "if" || word == "range"
  }

  // ----- Parsing (data_template.rs:579-656) -----

  /** The first `:=`, or the length when there is none. */
  function AssignAt(ts: seq<Token>): (n: nat)
    ensures n <= |ts|
  {
    if ts == [] || ts[0] == Assign then 0 else 1 + AssignAt(ts[1..])
  }

  /** The variables among the tokens; everything else is ignored. */
  function VarsOf(ts: seq<Token>): seq<string> {
    if ts == [] then []
    else if ts[0].VarField? then [ts[0].name] + VarsOf(ts[1..])
    else VarsOf(ts[1..])
  }

  function LoopVars(vars: seq<string>): RangeVars {
    if |vars| == 1 then OneVar(vars[0]) else if |vars| == 2 then TwoVars(vars[0], vars[1]) else NoVars
  }

  function ParseRange(ts: seq<Token>): Option<Action> {
    var at := AssignAt(ts);
    var p := ParsePipeline(if at < |ts| then ts[at + 1..] else ts);
    if p.None? then None
    else Some(Range(if at < |ts| then LoopVars(VarsOf(ts[..at])) else NoVars, p.value))
  }

  function ParseRun(ts: seq<Token>): Option<Action> {
    var at := AssignAt(ts);
    var vars := if at < |ts| then VarsOf(ts[..at]) else [];
    var p := ParsePipeline(if vars != [] then ts[at + 1..] else ts);
    if p.None? then None else Some(Run(vars, p.value))
  }

  function ParseAction(ts: seq<Token>): Option<Action> {
    if ts == [] then None
    else if IsWord(ts[0], "end") then Some(End)
    else if IsWord(ts[0], "else") then
      if |ts| > 1 && IsWord(ts[1], "if") then
        var p := ParsePipeline(ts[2..]);
        if p.None? then None else Some(ElseIf(p.value))
      else Some(Else)
    else if IsWord(ts[0], "if") then
      var p := ParsePipeline(ts[1..]);
      if p.None? then None else Some(If(p.value))
    else if IsWord(ts[0], "range") then ParseRange(ts[1..])
    else ParseRun(ts)
  }

  // ----- Printing -----

  function PrintVars(vars: seq<string>): seq<Token> {
    if vars == [] then []
    else if |vars| == 1 then [VarField(vars[0], [])]
    else [VarField(vars[0], []), Comma] + PrintVars(vars[1..])
  }

  function PrintAssign(vars: seq<string>, p: Pipeline): seq<Token> {
    if vars == [] then Print(p) else PrintVars(vars) + ([Assign] + Print(p))
  }

  function PrintAction(a: Action): seq<Token> {
    match a
    case End => [Ident("end")]
    case Else => [Ident("else")]
    case ElseIf(p) => [Ident("else"), Ident("if")] + Print(p)
    case If(p) => [Ident("if")] + Print(p)
    case Range(vars, p) => [Ident("range")] + PrintAssign(LoopNames(vars), p)
    case Run(vars, p) => PrintAssign(vars, p)
  }

  function LoopNames(vars: RangeVars): seq<string> {
    match vars
    case NoVars => []
    case OneVar(v) => [v]
    case TwoVars(i, v) => [i, v]
  }

  /** A plain pipeline that begins with a keyword reads as that keyword's action. */
  predicate StartsWithKeyword(p: Pipeline) {
    p.commands != [] && p.commands[0].terms != []
    && p.commands[0].terms[0].IdentTerm? && Keyword(p.commands[0].terms[0].id)
  }

  predicate GoodAction(a: Action) {
    match a
    case End => true
    case Else => true
    case ElseIf(p) => Good(p)
    case If(p) => Good(p)
    case Range(_, p) => Good(p)
    case Run(vars, p) => Good(p) && (vars == [] ==> !StartsWithKeyword(p))
  }

  // ----- No printed pipeline holds an assignment -----

  predicate NoAssign(ts: seq<Token>) {
    Assign !in ts
  }

  lemma {:induction false} TermHasNoAssign(t: Term)
    ensures NoAssign(PrintTerm(t))
    decreases t, 0
  {
    if t.SubExpr? {
      CommandsHaveNoAssign(t.sub.commands);
    }
  }

  lemma {:induction false} TermsHaveNoAssign(terms: seq<Term>)
    ensures NoAssign(PrintTerms(terms))
    decreases terms, 1
  {
    if terms != [] {
      TermHasNoAssign(terms[0]);
      TermsHaveNoAssign(terms[1..]);
    }
  }

  lemma {:induction false} CommandsHaveNoAssign(cs: seq<Command>)
    ensures NoAssign(PrintCommands(cs))
    decreases cs, 2
  {
    if cs != [] {
      TermsHaveNoAssign(cs[0].terms);
      if |cs| > 1 {
        CommandsHaveNoAssign(cs[1..]);
      }
    }
  }

  lemma {:induction false} AssignAbsent(ts: seq<Token>)
    requires NoAssign(ts)
    ensures AssignAt(ts) == |ts|
  {
    if ts != [] {
      AssignAbsent(ts[1..]);
    }
  }

  lemma {:induction false} AssignFound(left: seq<Token>, right: seq<Token>)
    requires NoAssign(left)
    ensures AssignAt(left + ([Assign] + right)) == |left|
  {
    if left != [] {
      assert (left + ([Assign] + right))[1..] == left[1..] + ([Assign] + right);
      AssignFound(left[1..], right);
    }
  }

  lemma {:induction false} VarsRoundTrip(vars: seq<string>)
    ensures VarsOf(PrintVars(vars)) == vars && NoAssign(PrintVars(vars))
    ensures vars != [] ==> PrintVars(vars) != [] && PrintVars(vars)[0].VarField?
  {
    if |vars| == 1 {
      assert PrintVars(vars)[1..] == [];
    } else if |vars| > 1 {
      VarsRoundTrip(vars[1..]);
      var ts, more := PrintVars(vars), PrintVars(vars[1..]);
      assert ts[1..] == [Comma] + more && ts[1..][1..] == more;
    }
  }

  /** An assignment splits at its `:=`; without variables there is none. */
  lemma {:induction false} AssignSplits(vars: seq<string>, p: Pipeline)
    ensures var ts := PrintAssign(vars, p);
            var at := AssignAt(ts);
            if vars == [] then at == |ts|
            else at < |ts| && VarsOf(ts[..at]) == vars && ts[at + 1..] == Print(p) && ts[0].VarField?
  {
    if vars == [] {
      CommandsHaveNoAssign(p.commands);
      AssignAbsent(Print(p));
    } else {
      VarsRoundTrip(vars);
      AssignFound(PrintVars(vars), Print(p));
      var ts := PrintAssign(vars, p);
      assert ts[..|PrintVars(vars)|] == PrintVars(vars);
      assert ts[|PrintVars(vars)| + 1..] == Print(p);
    }
  }

  // ----- Round trip -----

  lemma {:induction false} FirstToken(p: Pipeline)
    requires Good(p)
    ensures Print(p) != [] && p.commands != [] && p.commands[0].terms != []
    ensures Print(p)[0].Ident? ==> p.commands[0].terms[0] == IdentTerm(Print(p)[0].id)
  {
    assert GoodCommands(p.commands);
    var terms := p.commands[0].terms;
    PrintStart(terms[0]);
    assert PrintTerms(terms)[0] == PrintTerm(terms[0])[0];
  }

  lemma {:induction false} RangeRoundTrips(vars: RangeVars, p: Pipeline)
    requires Good(p)
    ensures ParseRange(PrintAssign(LoopNames(vars), p)) == Some(Range(vars, p))
  {
    RoundTrip(p);
    AssignSplits(LoopNames(vars), p);
  }

  lemma {:induction false} RunRoundTrips(vars: seq<string>, p: Pipeline)
    requires Good(p) && (vars == [] ==> !StartsWithKeyword(p))
    ensures ParseAction(PrintAssign(vars, p)) == Some(Run(vars, p))
  {
    RoundTrip(p);
    AssignSplits(vars, p);
    FirstToken(p);
    assert ParseRun(PrintAssign(vars, p)) == Some(Run(vars, p));
  }

  lemma {:induction false} ActionRoundTrip(a: Action)
    requires GoodAction(a)
    ensures ParseAction(PrintAction(a)) == Some(a)
  {
    match a
    case End =>
    case Else =>
    case ElseIf(p) =>
      RoundTrip(p);
      ConcatSplits([Ident("else"), Ident("if")], Print(p));
    case If(p) =>
      RoundTrip(p);
      ConcatSplits([Ident("if")], Print(p));
    case Range(vars, p) =>
      RangeRoundTrips(vars, p);
      ConcatSplits([Ident("range")], PrintAssign(LoopNames(vars), p));
    case Run(vars, p) =>
      RunRoundTrips(vars, p);
  }

  /** The first term of a parsed pipeline comes from the first token. */
  lemma {:induction false} FirstTerm(ts: seq<Token>)
    requires ParsePipeline(ts).Some?
    ensures ts != [] && var p := ParsePipeline(ts).value;
            p.commands != [] && p.commands[0].terms != []
            && (p.commands[0].terms[0].IdentTerm? ==> ts[0] == Ident(p.commands[0].terms[0].id))
  {
    var terms := ParseTerms(ts);
    assert terms.value != [];
    assert ParseTerm(ts).Done? && terms.value[0] == ParseTerm(ts).value;
  }

  lemma {:induction false} ParsedActionIsGood(ts: seq<Token>)
    requires ParseAction(ts).Some?
    ensures GoodAction(ParseAction(ts).value)
  {
    var a := ParseAction(ts).value;
    match a
    case End =>
    case Else =>
    case ElseIf(_) => ParsedIsGood(ts[2..]);
    case If(_) => ParsedIsGood(ts[1..]);
    case Range(_, _) =>
      var at := AssignAt(ts[1..]);
      ParsedIsGood(if at < |ts[1..]| then ts[1..][at + 1..] else ts[1..]);
    case Run(vars, _) =>
      if vars == [] {
        ParsedIsGood(ts);
        FirstTerm(ts);
      } else {
        ParsedIsGood(ts[AssignAt(ts) + 1..]);
      }
  }

  /**
    An action survives printing and parsing exactly when its pipeline has no empty command
    and, if it is a plain pipeline, does not begin with one of the four keywords.
   */
  lemma {:induction false} ActionRoundTripIff(a: Action)
    ensures ParseAction(PrintAction(a)) == Some(a) <==> GoodAction(a)
  {
    if GoodAction(a) {
      ActionRoundTrip(a);
    }
    if ParseAction(PrintAction(a)) == Some(a) {
      ParsedActionIsGood(PrintAction(a));
    }
  }

  /** A pipeline that calls a function named `end` is read as the end of a block. */
  lemma {:induction false} EndIsAKeyword()
    ensures var p := Pipeline([Command([IdentTerm("end")])]);
            Good(p) && PrintAction(Run([], p)) == [Ident("end")] && ParseAction([Ident("end")]) == Some(End)
  {
    var terms := [IdentTerm("end")];
    assert terms[1..] == [] && [Command(terms)][1..] == [];
    assert GoodTerms([]) && GoodCommands([]);
    assert PrintTerms(terms) == PrintTerm(terms[0]) + PrintTerms([]);
  }

  // ----- Spellings that are not printed -----

  /** `end` and `else` hide what follows them, unless `else` is followed by `if`; no tokens are no action. */
  lemma {:induction false} KeywordsHideTheRest(rest: seq<Token>)
    ensures ParseAction([Ident("end")] + rest) == Some(End) && ParseAction([]) == None
    ensures rest == [] || rest[0] != Ident("if") ==> ParseAction([Ident("else")] + rest) == Some(Else)
  {
  }

  /** The variables named in a list of tokens, from the right. */
  function NamesIn(ts: seq<Token>): seq<string> {
    if ts == [] then []
    else
      var last := ts[|ts| - 1];
      NamesIn(ts[..|ts| - 1]) + (if last.VarField? then [last.name] else [])
  }

  lemma {:induction false} VarsConcat(a: seq<Token>, b: seq<Token>)
    ensures VarsOf(a + b) == VarsOf(a) + VarsOf(b)
    decreases |a|
  {
    if a == [] {
      ConcatNil(b);
      ConcatNil(VarsOf(b));
    } else {
      assert (a + b)[1..] == a[1..] + b && (a + b)[0] == a[0];
      VarsConcat(a[1..], b);
    }
  }

  lemma {:induction false} NamesAreVars(ts: seq<Token>)
    ensures NamesIn(ts) == VarsOf(ts)
  {
    if ts != [] {
      var n := |ts| - 1;
      var last := ts[n];
      NamesAreVars(ts[..n]);
      VarsConcat(ts[..n], [last]);
      assert ts == ts[..n] + [last] && [last][1..] == [];
      assert VarsOf([last]) == if last.VarField? then [last.name] else [];
    }
  }

  /** What `range` makes of the variables before its `:=`; three and more are none. */
  function LoopOver(names: seq<string>): RangeVars {
    match |names|
    case 1 => OneVar(names[0])
    case 2 => TwoVars(names[0], names[1])
    case _ => NoVars
  }

  /**
    Whatever stands before the first `:=`, only the variables in it count, in order: for `range`
    one or two of them, for an assignment all of them if there is one.
   */
  lemma {:induction false} OnlyVariablesCount(left: seq<Token>, p: Pipeline)
    requires Assign !in left && Good(p)
    ensures ParseAction([Ident("range")] + (left + ([Assign] + Print(p)))) == Some(Range(LoopOver(NamesIn(left)), p))
    ensures left != [] && !left[0].Ident? && NamesIn(left) != [] ==>
              ParseAction(left + ([Assign] + Print(p))) == Some(Run(NamesIn(left), p))
  {
    var ts := left + ([Assign] + Print(p));
    NamesAreVars(left);
    AssignFound(left, Print(p));
    RoundTrip(p);
    ConcatSplits(left, [Assign] + Print(p));
    assert ts[|left| + 1..] == Print(p);
    ConcatSplits([Ident("range")], ts);
    assert ParseRange(ts) == Some(Range(LoopOver(NamesIn(left)), p));
  }

  // ----- An assignment needs a variable -----

  lemma {:induction false} NoAssignParts(ts: seq<Token>, n: nat)
    requires n <= |ts| && NoAssign(ts[..n]) && NoAssign(ts[n..])
    ensures NoAssign(ts)
  {
    assert ts == ts[..n] + ts[n..];
  }

  lemma {:induction false} NoAssignAfterPipe(rest: seq<Token>)
    requires NoAssign(AfterPipe(rest))
    ensures NoAssign(rest)
  {
    if rest != [] && rest[0] == Pipe {
      HeadAndTail(rest);
    }
  }

  lemma {:induction false} ParsedTermHasNoAssign(ts: seq<Token>)
    requires ParseTerm(ts).Done?
    ensures NoAssign(ts[..ParseTerm(ts).size])
    decreases |ts|, 0
  {
    if ts[0] == LParen {
      var k := Closing(ts[1..], 1).value;
      ParsedHasNoAssign(ts[1..][..k]);
      assert ts[..k + 2] == [LParen] + ts[1..][..k] + [RParen];
    }
  }

  lemma {:induction false} ParsedTermsHaveNoAssign(ts: seq<Token>)
    requires ParseTerms(ts).Done?
    ensures NoAssign(ts[..ParseTerms(ts).size])
    decreases |ts|, 1
  {
    if ts != [] && ts[0] != Pipe {
      var n := ParseTerm(ts).size;
      ParsedTermHasNoAssign(ts);
      ParsedTermsHaveNoAssign(ts[n..]);
      var m := ParseTerms(ts[n..]).size;
      assert ts[..n + m][..n] == ts[..n] && ts[..n + m][n..] == ts[n..][..m];
      NoAssignParts(ts[..n + m], n);
    }
  }

  lemma {:induction false} ParsedCommandsHaveNoAssign(ts: seq<Token>)
    requires ParseCommands(ts).Some?
    ensures NoAssign(ts)
    decreases |ts|, 2
  {
    if ts != [] {
      var n := ParseTerms(ts).size;
      ParsedTermsHaveNoAssign(ts);
      ParsedCommandsHaveNoAssign(AfterPipe(ts[n..]));
      NoAssignAfterPipe(ts[n..]);
      NoAssignParts(ts, n);
    }
  }

  lemma {:induction false} ParsedHasNoAssign(ts: seq<Token>)
    requires ParsePipeline(ts).Some?
    ensures NoAssign(ts)
    decreases |ts|, 3
  {
    ParsedCommandsHaveNoAssign(ts);
  }

  /** A `:=` without a variable before it is refused. */
  lemma {:induction false} AssignmentNeedsAVariable(left: seq<Token>, right: seq<Token>)
    requires Assign !in left && NamesIn(left) == [] && (left != [] ==> !left[0].Ident?)
    ensures ParseAction(left + ([Assign] + right)) == None
  {
    var ts := left + ([Assign] + right);
    NamesAreVars(left);
    AssignFound(left, right);
    ConcatSplits(left, [Assign] + right);
    assert ts[|left|] == Assign;
    assert left != [] ==> ts[0] == left[0];
    if ParsePipeline(ts).Some? {
      ParsedHasNoAssign(ts);
    }
  }
}
