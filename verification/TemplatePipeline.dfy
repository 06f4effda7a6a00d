/**
  Pipelines and actions of `data_template.rs`: tokens are parsed into commands made of
  terms, with parenthesised sub-pipelines found by a depth scan.
 */
module TemplatePipeline {
  import opened Common

  datatype Token =
    | Dot | DotField(fields: seq<string>) | VarField(name: string, path: seq<string>)
    | StringLit(s: string) | IntLit(i: int) | FloatLit(bits: int) | BoolLit(b: bool) | NilLit
    | Ident(id: string) | Pipe | Assign | Comma | LParen | RParen

  datatype PathBase = OfDot | OfVar(name: string)

  datatype Term =
    | FieldPath(base: PathBase, fields: seq<string>)
    | StringTerm(s: string) | IntTerm(i: int) | FloatTerm(bits: int) | BoolTerm(b: bool) | NilTerm
    | IdentTerm(id: string)
    | SubExpr(sub: Pipeline)

  datatype Command = Command(terms: seq<Term>)
  datatype Pipeline = Pipeline(commands: seq<Command>)

  // ----- Parsing (data_template.rs:503-577) -----

  /** What a parser read and how many tokens it took. */
  datatype Parsed<+T> = Fail | Done(value: T, size: nat)

  /** The single-token terms. */
  function Atom(t: Token): Option<Term> {
    match t
    case Dot => Some(FieldPath(OfDot, []))
    case DotField(fs) => Some(FieldPath(OfDot, fs))
    case VarField(v, fs) => Some(FieldPath(OfVar(v), fs))
    case StringLit(s) => Some(StringTerm(s))
    case IntLit(i) => Some(IntTerm(i))
    case FloatLit(f) => Some(FloatTerm(f))
    case BoolLit(b) => Some(BoolTerm(b))
    case NilLit => Some(NilTerm)
    case Ident(s) => Some(IdentTerm(s))
    case _ => None
  }

  /** The index of the parenthesis that closes the `depth` open ones. */
  function Closing(ts: seq<Token>, depth: nat): (r: Option<nat>)
    requires depth >= 1
    ensures r.Some? ==> r.value < |ts| && ts[r.value] == RParen
    decreases |ts|
  {
    if ts == [] then None
    else if ts[0] == RParen && depth == 1 then Some(0)
    else
      var d := if ts[0] == LParen then depth + 1 else if ts[0] == RParen then depth - 1 else depth;
      match Closing(ts[1..], d)
      case None => None
      case Some(k) => Some(k + 1)
  }

  function ParseTerm(ts: seq<Token>): (r: Parsed<Term>)
    ensures r.Done? ==> 1 <= r.size <= |ts|
    decreases |ts|, 0
  {
    if ts == [] then Fail
    else if ts[0] == LParen then
      match Closing(ts[1..], 1)
      case None => Fail
      case Some(k) =>
        (match ParsePipeline(ts[1..][..k])
         case None => Fail
         case Some(p) => Done(SubExpr(p), k + 2))
    else
      match Atom(ts[0])
      case None => Fail
      case Some(t) => Done(t, 1)
  }

  /** Terms up to the next pipe or the end. */
  function ParseTerms(ts: seq<Token>): (r: Parsed<seq<Term>>)
    ensures r.Done? ==> r.size <= |ts| && (r.value == [] <==> r.size == 0)
    decreases |ts|, 1
  {
    if ts == [] || ts[0] == Pipe then Done([], 0)
    else
      var first := ParseTerm(ts);
      if first.Fail? then Fail
      else
        var more := ParseTerms(ts[first.size..]);
        if more.Fail? then Fail else Done([first.value] + more.value, first.size + more.size)
  }

  function AfterPipe(rest: seq<Token>): (r: seq<Token>)
    ensures |r| <= |rest|
  {
    if rest != [] && rest[0] == Pipe then rest[1..] else rest
  }

  /** Commands separated by pipes; a pipe at the very end is swallowed. */
  function ParseCommands(ts: seq<Token>): Option<seq<Command>>
    decreases |ts|, 2
  {
    if ts == [] then Some([])
    else
      var terms := ParseTerms(ts);
      if terms.Fail? || terms.value == [] then None
      else
        match ParseCommands(AfterPipe(ts[terms.size..]))
        case None => None
        case Some(more) => Some([Command(terms.value)] + more)
  }

  function ParsePipeline(ts: seq<Token>): Option<Pipeline>
    decreases |ts|, 3
  {
    match ParseCommands(ts)
    case None => None
    case Some(cs) => if cs == [] then None else Some(Pipeline(cs))
  }

  // ----- Printing -----

  function PrintTerm(t: Term): seq<Token>
    decreases t, 0
  {
    match t
    case FieldPath(OfDot, fs) => if fs == [] then [Dot] else [DotField(fs)]
    case FieldPath(OfVar(v), fs) => [VarField(v, fs)]
    case StringTerm(s) => [StringLit(s)]
    case IntTerm(i) => [IntLit(i)]
    case FloatTerm(f) => [FloatLit(f)]
    case BoolTerm(b) => [BoolLit(b)]
    case NilTerm => [NilLit]
    case IdentTerm(s) => [Ident(s)]
    case SubExpr(p) => [LParen] + Print(p) + [RParen]
  }

  function PrintTerms(terms: seq<Term>): seq<Token>
    decreases terms, 1
  {
    if terms == [] then [] else PrintTerm(terms[0]) + PrintTerms(terms[1..])
  }

  function PrintCommands(cs: seq<Command>): seq<Token>
    decreases cs, 2
  {
    if cs == [] then []
    else if |cs| == 1 then PrintTerms(cs[0].terms)
    else PrintTerms(cs[0].terms) + ([Pipe] + PrintCommands(cs[1..]))
  }

  function Print(p: Pipeline): seq<Token>
    decreases p, 3
  {
    PrintCommands(p.commands)
  }

  /** Commands and terms are non-empty, at every depth. */
  predicate Good(p: Pipeline)
    decreases p, 3
  {
    p.commands != [] && GoodCommands(p.commands)
  }

  predicate GoodCommands(cs: seq<Command>)
    decreases cs, 2
  {
    cs == [] || (cs[0].terms != [] && GoodTerms(cs[0].terms) && GoodCommands(cs[1..]))
  }

  predicate GoodTerms(terms: seq<Term>)
    decreases terms, 1
  {
    terms == [] || (GoodTerm(terms[0]) && GoodTerms(terms[1..]))
  }

  predicate GoodTerm(t: Term)
    decreases t, 0
  {
    t.SubExpr? ==> Good(t.sub)
  }

  // ----- The depth scan passes over printed text -----

  /** `ts` can be inserted before anything without moving what closes the open parentheses. */
  ghost predicate Balanced(ts: seq<Token>) {
    forall rest: seq<Token>, d: nat :: d >= 1 ==> SkipsOver(ts, rest, d)
  }

  ghost predicate SkipsOver(ts: seq<Token>, rest: seq<Token>, d: nat)
    requires d >= 1
  {
    Closing(ts + rest, d) == Shifted(Closing(rest, d), |ts|)
  }

  function Shifted(r: Option<nat>, n: nat): Option<nat> {
    if r.None? then None else Some(r.value + n)
  }

  lemma {:induction false} BalancedEmpty()
    ensures Balanced([])
  {
    forall rest: seq<Token>, d: nat | d >= 1
      ensures SkipsOver([], rest, d)
    {
      assert [] + rest == rest;
    }
  }

  lemma {:induction false} BalancedOne(t: Token)
    requires t != LParen && t != RParen
    ensures Balanced([t])
  {
  }

  lemma {:induction false} BalancedConcat(a: seq<Token>, b: seq<Token>)
    requires Balanced(a) && Balanced(b)
    ensures Balanced(a + b)
  {
    forall rest: seq<Token>, d: nat | d >= 1
      ensures SkipsOver(a + b, rest, d)
    {
      ConcatAssociates(a, b, rest);
      assert SkipsOver(a, b + rest, d) && SkipsOver(b, rest, d);
    }
  }

  lemma {:induction false} BalancedParens(a: seq<Token>)
    requires Balanced(a)
    ensures Balanced([LParen] + a + [RParen])
  {
    forall rest: seq<Token>, d: nat | d >= 1
      ensures SkipsOver([LParen] + a + [RParen], rest, d)
    {
      InsideParens(a, rest);
      ConcatSplits([RParen], rest);
      assert SkipsOver(a, [RParen] + rest, d + 1);
    }
  }

  lemma {:induction false} InsideParens(a: seq<Token>, rest: seq<Token>)
    ensures (([LParen] + a + [RParen]) + rest)[1..] == a + ([RParen] + rest)
  {
  }

  lemma {:induction false} TermBalanced(t: Term)
    ensures Balanced(PrintTerm(t))
    decreases t, 0
  {
    if t.SubExpr? {
      CommandsBalanced(t.sub.commands);
      BalancedParens(Print(t.sub));
    } else {
      BalancedOne(PrintTerm(t)[0]);
    }
  }

  lemma {:induction false} TermsBalanced(terms: seq<Term>)
    ensures Balanced(PrintTerms(terms))
    decreases terms, 1
  {
    if terms == [] {
      BalancedEmpty();
    } else {
      TermBalanced(terms[0]);
      TermsBalanced(terms[1..]);
      BalancedConcat(PrintTerm(terms[0]), PrintTerms(terms[1..]));
    }
  }

  lemma {:induction false} CommandsBalanced(cs: seq<Command>)
    ensures Balanced(PrintCommands(cs))
    decreases cs, 2
  {
    if cs == [] {
      BalancedEmpty();
    } else {
      TermsBalanced(cs[0].terms);
      if |cs| > 1 {
        CommandsBalanced(cs[1..]);
        BalancedOne(Pipe);
        BalancedConcat([Pipe], PrintCommands(cs[1..]));
        BalancedConcat(PrintTerms(cs[0].terms), [Pipe] + PrintCommands(cs[1..]));
      }
    }
  }

  // ----- Round trip -----

  lemma {:induction false} TermRoundTrip(t: Term, rest: seq<Token>)
    requires GoodTerm(t)
    ensures ParseTerm(PrintTerm(t) + rest) == Done(t, |PrintTerm(t)|)
    decreases t, 0
  {
    var ts := PrintTerm(t) + rest;
    if t.SubExpr? {
      var inner := Print(t.sub);
      CommandsBalanced(t.sub.commands);
      assert ts[1..] == inner + ([RParen] + rest);
      assert SkipsOver(inner, [RParen] + rest, 1);
      assert ts[1..][..|inner|] == inner;
      RoundTrip(t.sub);
    }
  }

  /** Where a list of terms ends: at the end or before a pipe. */
  predicate EndsTerms(rest: seq<Token>) {
    rest == [] || rest[0] == Pipe
  }

  lemma {:induction false} PrintStart(t: Term)
    ensures PrintTerm(t) != [] && PrintTerm(t)[0] != Pipe
  {
  }

  lemma {:induction false} ParseTermsStep(ts: seq<Token>, t: Term, n: nat, more: seq<Term>, m: nat)
    requires ts != [] && ts[0] != Pipe && ParseTerm(ts) == Done(t, n) && ParseTerms(ts[n..]) == Done(more, m)
    ensures ParseTerms(ts) == Done([t] + more, n + m)
  {
  }

  lemma {:induction false} TermsRoundTrip(terms: seq<Term>, rest: seq<Token>)
    requires GoodTerms(terms) && EndsTerms(rest)
    ensures ParseTerms(PrintTerms(terms) + rest) == Done(terms, |PrintTerms(terms)|)
    decreases terms, 1
  {
    if terms == [] {
      assert PrintTerms(terms) + rest == rest;
    } else {
      var first, more := PrintTerm(terms[0]), PrintTerms(terms[1..]);
      ConcatAssociates(first, more, rest);
      TermRoundTrip(terms[0], more + rest);
      PrintStart(terms[0]);
      ConcatSplits(first, more + rest);
      TermsRoundTrip(terms[1..], rest);
      ParseTermsStep(first + (more + rest), terms[0], |first|, terms[1..], |more|);
      HeadAndTail(terms);
    }
  }

  lemma {:induction false} CommandsRoundTrip(cs: seq<Command>)
    requires GoodCommands(cs)
    ensures ParseCommands(PrintCommands(cs)) == Some(cs)
    decreases cs, 2
  {
    if cs != [] {
      var first := PrintTerms(cs[0].terms);
      PrintIsNonempty(cs[0].terms);
      HeadAndTail(cs);
      if |cs| == 1 {
        TermsRoundTrip(cs[0].terms, []);
        assert first + [] == first && first[|first|..] == [];
        assert ParseCommands([]) == Some([]);
        assert cs[1..] == [];
      } else {
        var rest := [Pipe] + PrintCommands(cs[1..]);
        TermsRoundTrip(cs[0].terms, rest);
        ConcatSplits(first, rest);
        ConcatSplits([Pipe], PrintCommands(cs[1..]));
        CommandsRoundTrip(cs[1..]);
      }
    }
  }

  lemma {:induction false} PrintIsNonempty(terms: seq<Term>)
    requires terms != []
    ensures PrintTerms(terms) != []
  {
  }

  /** Printing any pipeline and parsing the tokens gives the same pipeline, at any nesting. */
  lemma {:induction false} RoundTrip(p: Pipeline)
    requires Good(p)
    ensures ParsePipeline(Print(p)) == Some(p)
    decreases p, 3
  {
    CommandsRoundTrip(p.commands);
  }

  // ----- What parses is well formed -----

  lemma {:induction false} ParsedTermIsGood(ts: seq<Token>)
    requires ParseTerm(ts).Done?
    ensures GoodTerm(ParseTerm(ts).value)
    decreases |ts|, 0
  {
    if ts[0] == LParen {
      ParsedIsGood(ts[1..][..Closing(ts[1..], 1).value]);
    }
  }

  lemma {:induction false} ParsedTermsAreGood(ts: seq<Token>)
    requires ParseTerms(ts).Done?
    ensures GoodTerms(ParseTerms(ts).value)
    decreases |ts|, 1
  {
    if ts != [] && ts[0] != Pipe {
      ParsedTermIsGood(ts);
      ParsedTermsAreGood(ts[ParseTerm(ts).size..]);
    }
  }

  lemma {:induction false} ParsedCommandsAreGood(ts: seq<Token>)
    requires ParseCommands(ts).Some?
    ensures GoodCommands(ParseCommands(ts).value)
    decreases |ts|, 2
  {
    if ts != [] {
      ParsedTermsAreGood(ts);
      ParsedCommandsAreGood(AfterPipe(ts[ParseTerms(ts).size..]));
    }
  }

  /** Whatever parses has no empty command, so printing it and parsing again gives it back. */
  lemma {:induction false} ParsedIsGood(ts: seq<Token>)
    requires ParsePipeline(ts).Some?
    ensures Good(ParsePipeline(ts).value)
    decreases |ts|, 3
  {
    ParsedCommandsAreGood(ts);
  }

  /** A trailing pipe is tolerated: the printed tokens are not the only ones that parse. */
  lemma {:induction false} TrailingPipeIsTolerated(terms: seq<Term>)
    requires terms != [] && GoodTerms(terms)
    ensures ParsePipeline(PrintTerms(terms) + [Pipe]) == Some(Pipeline([Command(terms)]))
  {
    PrintIsNonempty(terms);
    TermsRoundTrip(terms, [Pipe]);
    ConcatSplits(PrintTerms(terms), [Pipe]);
    assert [Pipe][1..] == [];
    assert ParseCommands([]) == Some([]);
    assert [Command(terms)] + [] == [Command(terms)];
  }

  // ----- Which spellings are printed ones -----

  /** No empty field path, and no pipe at the end of a pipeline, whether the list or a closing parenthesis ends it. */
  predicate Clean(ts: seq<Token>) {
    && DotField([]) !in ts
    && forall i | 0 <= i < |ts| && ts[i] == Pipe :: i + 1 < |ts| && ts[i + 1] != RParen
  }

  predicate EndsOpen(ts: seq<Token>) {
    ts != [] && ts[|ts| - 1] == Pipe
  }

  lemma {:induction false} CleanConcat(a: seq<Token>, b: seq<Token>)
    requires !EndsOpen(a)
    ensures Clean(a + b) <==> Clean(a) && Clean(b)
  {
    var ts := a + b;
    if Clean(ts) {
      forall i | 0 <= i < |a| && a[i] == Pipe
        ensures i + 1 < |a| && a[i + 1] != RParen
      {
        assert ts[i] == Pipe && i + 1 < |a|;
        assert ts[i + 1] == a[i + 1];
      }
      forall i | 0 <= i < |b| && b[i] == Pipe
        ensures i + 1 < |b| && b[i + 1] != RParen
      {
        assert ts[|a| + i] == Pipe;
        assert i + 1 < |b| ==> ts[|a| + i + 1] == b[i + 1];
      }
    }
    if Clean(a) && Clean(b) {
      forall i | 0 <= i < |ts| && ts[i] == Pipe
        ensures i + 1 < |ts| && ts[i + 1] != RParen
      {
        if i < |a| {
          assert a[i] == Pipe && ts[i + 1] == a[i + 1];
        } else {
          assert b[i - |a|] == Pipe && ts[i + 1] == b[i - |a| + 1];
        }
      }
    }
  }

  lemma {:induction false} CleanParens(inner: seq<Token>)
    ensures Clean([LParen] + inner + [RParen]) <==> Clean(inner)
  {
    var ts := [LParen] + inner + [RParen];
    forall i | 0 <= i < |inner|
      ensures ts[i + 1] == inner[i]
    {
    }
    if Clean(ts) {
      forall i | 0 <= i < |inner| && inner[i] == Pipe
        ensures i + 1 < |inner| && inner[i + 1] != RParen
      {
        assert ts[i + 1] == Pipe && ts[i + 2] != RParen;
        assert i + 1 < |inner| ==> ts[i + 2] == inner[i + 1];
      }
    }
    if Clean(inner) {
      forall i | 0 <= i < |ts| && ts[i] == Pipe
        ensures i + 1 < |ts| && ts[i + 1] != RParen
      {
        assert inner[i - 1] == Pipe && ts[i + 1] == inner[i];
      }
    }
  }

  lemma {:induction false} CleanAfterPipe(more: seq<Token>)
    requires more != [] && more[0] != RParen
    ensures Clean([Pipe] + more) <==> Clean(more)
  {
    var ts := [Pipe] + more;
    if Clean(ts) {
      forall i | 0 <= i < |more| && more[i] == Pipe
        ensures i + 1 < |more| && more[i + 1] != RParen
      {
        assert ts[i + 1] == Pipe;
        assert i + 1 < |more| ==> ts[i + 2] == more[i + 1];
      }
    }
    if Clean(more) {
      forall i | 0 <= i < |ts| && ts[i] == Pipe
        ensures i + 1 < |ts| && ts[i + 1] != RParen
      {
        if i > 0 {
          assert more[i - 1] == Pipe && ts[i + 1] == more[i];
        }
      }
    }
  }

  /** Two printings no longer than what they stand for agree with it together only if each does. */
  lemma {:induction false} PartsAgree(p: seq<Token>, q: seq<Token>, a: seq<Token>, b: seq<Token>)
    requires |p| <= |a| && |q| <= |b|
    ensures p + q == a + b <==> p == a && q == b
  {
    if p + q == a + b {
      assert |p| + |q| == |a| + |b|;
      assert p == (p + q)[..|p|] == a && q == (p + q)[|p|..] == b;
    }
  }

  /** What a parser read, and whether printing it gives the same tokens: exactly if they are clean. */
  ghost predicate PrintsBack(printed: seq<Token>, ts: seq<Token>) {
    |printed| <= |ts| && !EndsOpen(printed) && (printed == ts <==> Clean(ts))
  }

  lemma {:induction false} TermPrintsBack(ts: seq<Token>)
    requires ParseTerm(ts).Done?
    ensures var r := ParseTerm(ts);
            PrintsBack(PrintTerm(r.value), ts[..r.size]) && ts[r.size - 1] != Pipe && ts[0] != RParen
    decreases |ts|, 0
  {
    if ts[0] == LParen {
      var k := Closing(ts[1..], 1).value;
      PipelinePrintsBack(ts[1..][..k]);
      SubPrintsBack(ts, k, Print(ParsePipeline(ts[1..][..k]).value));
    } else {
      AtomPrintsBack(ts[0]);
      assert ts[..1] == [ts[0]];
    }
  }

  lemma {:induction false} AtomPrintsBack(t: Token)
    requires Atom(t).Some?
    ensures PrintsBack(PrintTerm(Atom(t).value), [t]) && t != Pipe && t != RParen
  {
    assert DotField([]) in [t] <==> t == DotField([]);
  }

  lemma {:induction false} SubPrintsBack(ts: seq<Token>, k: nat, printed: seq<Token>)
    requires k + 2 <= |ts| && ts[0] == LParen && ts[k + 1] == RParen && PrintsBack(printed, ts[1..][..k])
    ensures PrintsBack([LParen] + printed + [RParen], ts[..k + 2])
  {
    var inner := ts[1..][..k];
    CleanParens(inner);
    assert ts[..k + 2] == [LParen] + inner + [RParen];
    ParensCancel(printed, inner);
  }

  lemma {:induction false} ParensCancel(p: seq<Token>, q: seq<Token>)
    ensures [LParen] + p + [RParen] == [LParen] + q + [RParen] <==> p == q
  {
    var a, b := [LParen] + p + [RParen], [LParen] + q + [RParen];
    if a == b {
      assert p == a[1..|a| - 1] && q == b[1..|b| - 1];
    }
  }

  lemma {:induction false} TermsPrintBack(ts: seq<Token>)
    requires ParseTerms(ts).Done?
    ensures var r := ParseTerms(ts);
            && PrintsBack(PrintTerms(r.value), ts[..r.size]) && !EndsOpen(ts[..r.size])
            && (r.size > 0 ==> ts[0] != RParen) && EndsTerms(ts[r.size..])
    decreases |ts|, 1
  {
    if ts != [] && ts[0] != Pipe {
      var t := ParseTerm(ts);
      var left := ts[t.size..];
      var more := ParseTerms(left);
      TermPrintsBack(ts);
      TermsPrintBack(left);
      SlicesAdd(ts, t.size, more.size);
      TermsFollow(PrintTerm(t.value), PrintTerms(more.value), ts[..t.size], left[..more.size]);
      UnfoldTerms(ts);
      ConcatSplits([t.value], more.value);
    }
  }

  lemma {:induction false} TermsFollow(p: seq<Token>, q: seq<Token>, a: seq<Token>, b: seq<Token>)
    requires PrintsBack(p, a) && PrintsBack(q, b) && a != [] && !EndsOpen(a) && !EndsOpen(b)
    ensures PrintsBack(p + q, a + b) && !EndsOpen(a + b)
  {
    CleanConcat(a, b);
    PartsAgree(p, q, a, b);
  }

  lemma {:induction false} SlicesAdd(ts: seq<Token>, n: nat, m: nat)
    requires n + m <= |ts|
    ensures ts[..n] + ts[n..][..m] == ts[..n + m] && ts[n..][m..] == ts[n + m..]
  {
  }

  lemma {:induction false} PrintFirst(terms: seq<Term>, more: seq<Command>)
    ensures PrintCommands([Command(terms)] + more)
            == if more == [] then PrintTerms(terms) else PrintTerms(terms) + ([Pipe] + PrintCommands(more))
  {
    ConcatSplits([Command(terms)], more);
  }

  lemma {:induction false} CommandsPrintBack(ts: seq<Token>)
    requires ParseCommands(ts).Some?
    ensures var printed := PrintCommands(ParseCommands(ts).value);
            PrintsBack(printed, ts) && (ts != [] ==> ts[0] != RParen && printed != [])
    decreases |ts|, 2
  {
    if ts != [] {
      var terms := ParseTerms(ts);
      var n := terms.size;
      TermsPrintBack(ts);
      PrintIsNonempty(terms.value);
      UnfoldCommands(ts, terms.value, n);
      var more := ParseCommands(AfterPipe(ts[n..])).value;
      PrintFirst(terms.value, more);
      if n == |ts| {
        assert ts[..n] == ts && more == [];
      } else {
        SplitAtPipe(ts, n);
        CommandsPrintBack(ts[n + 1..]);
        AfterPipePrintsBack(PrintTerms(terms.value), ts[..n], ts[n + 1..], PrintCommands(more), more == []);
      }
    }
  }

  lemma {:induction false} SplitAtPipe(ts: seq<Token>, n: nat)
    requires n < |ts| && ts[n] == Pipe
    ensures AfterPipe(ts[n..]) == ts[n + 1..] && ts == ts[..n] + ([Pipe] + ts[n + 1..])
  {
    assert ts[n..][1..] == ts[n + 1..];
  }

  /** A pipe is printed exactly if a command follows it. */
  lemma {:induction false} AfterPipePrintsBack(p: seq<Token>, a: seq<Token>, more: seq<Token>, q: seq<Token>,
                                               last: bool)
    requires PrintsBack(p, a) && p != [] && !EndsOpen(a) && PrintsBack(q, more) && last == (more == [])
    requires more != [] ==> more[0] != RParen && q != []
    ensures PrintsBack(if last then p else p + ([Pipe] + q), a + ([Pipe] + more))
  {
    CleanConcat(a, [Pipe] + more);
    if last {
      assert ([Pipe] + more)[0] == Pipe;
    } else {
      CleanAfterPipe(more);
      PartsAgree([Pipe], q, [Pipe], more);
      PartsAgree(p, [Pipe] + q, a, [Pipe] + more);
    }
  }

  /**
    Printing what was parsed gives the tokens back if and only if they hold no empty field path
    and every pipe is followed by a token other than a closing parenthesis: at any depth, a
    trailing pipe and a spelled-out empty path are the only other spellings.
   */
  lemma {:induction false} PipelinePrintsBack(ts: seq<Token>)
    requires ParsePipeline(ts).Some?
    ensures PrintsBack(Print(ParsePipeline(ts).value), ts)
    ensures Print(ParsePipeline(ts).value) == ts <==> Clean(ts)
    decreases |ts|, 3
  {
    CommandsPrintBack(ts);
  }

  // ----- The source's loops; the cursor is the slice still to be read -----

  /** The depth scan of `parse_term`, just inside an open parenthesis. */
  method ScanToClose(tokens: seq<Token>) returns (r: Option<nat>)
    ensures r == Closing(tokens, 1)
  {
    var rest, idx, depth := tokens, 0, 1;
    ghost var goal := Closing(tokens, 1);
    while rest != []
      invariant depth >= 1 && goal == Shifted(Closing(rest, depth), idx)
      decreases |rest|
    {
      if rest[0] == LParen {
        depth := depth + 1;
      } else if rest[0] == RParen {
        depth := depth - 1;
        if depth == 0 {
          return Some(idx);
        }
      }
      rest, idx := rest[1..], idx + 1;
    }
    r := None;
  }

  /** `parse_term`: reads one term off the front. */
  method ReadTerm(tokens: seq<Token>) returns (r: Parsed<Term>)
    ensures r == ParseTerm(tokens)
    decreases |tokens|, 0
  {
    if tokens == [] { return Fail; }
    if tokens[0] == LParen {
      var close := ScanToClose(tokens[1..]);
      if close.None? { return Fail; }
      var p := ReadPipeline(tokens[1..][..close.value]);
      if p.None? { return Fail; }
      return Done(SubExpr(p.value), close.value + 2);
    }
    var t := Atom(tokens[0]);
    r := if t.None? then Fail else Done(t.value, 1);
  }

  /** The inner loop of `parse_pipeline_tokens`: terms up to the next pipe. */
  method ReadTerms(tokens: seq<Token>) returns (r: Parsed<seq<Term>>)
    ensures r == ParseTerms(tokens)
    decreases |tokens|, 1
  {
    var terms: seq<Term>, rest, n: nat := [], tokens, 0;
    ghost var goal := ParseTerms(tokens);
    ContinuedFromStart(goal);
    while rest != [] && rest[0] != Pipe
      invariant |rest| <= |tokens|
      invariant goal == Continued(terms, n, ParseTerms(rest))
      decreases |rest|
    {
      var t := ReadTerm(rest);
      UnfoldTerms(rest);
      if t.Fail? { return Fail; }
      ContinuedAssociates(terms, n, t.value, t.size, ParseTerms(rest[t.size..]));
      terms, n, rest := terms + [t.value], n + t.size, rest[t.size..];
    }
    assert terms + [] == terms;
    r := Done(terms, n);
  }

  /** `parse_pipeline_tokens`. */
  method ReadPipeline(tokens: seq<Token>) returns (r: Option<Pipeline>)
    ensures r == ParsePipeline(tokens)
    decreases |tokens|, 2
  {
    var commands: seq<Command>, rest := [], tokens;
    ghost var goal := ParseCommands(tokens);
    PrefixedByNothing(goal);
    while rest != []
      invariant |rest| <= |tokens|
      invariant goal == Prefixed(commands, ParseCommands(rest))
      decreases |rest|
    {
      var terms := ReadTerms(rest);
      if terms.Fail? { return None; }
      if terms.value == [] { return None; }
      UnfoldCommands(rest, terms.value, terms.size);
      rest := AfterPipe(rest[terms.size..]);
      PrefixedAssociates(commands, Command(terms.value), ParseCommands(rest));
      commands := commands + [Command(terms.value)];
    }
    assert commands + [] == commands;
    if commands == [] { return None; }
    r := Some(Pipeline(commands));
  }

  ghost function Prefixed(done: seq<Command>, left: Option<seq<Command>>): Option<seq<Command>> {
    if left.None? then None else Some(done + left.value)
  }

  lemma {:induction false} PrefixedByNothing(left: Option<seq<Command>>)
    ensures Prefixed([], left) == left
  {
    if left.Some? {
      assert [] + left.value == left.value;
    }
  }

  lemma {:induction false} PrefixedAssociates(done: seq<Command>, c: Command, left: Option<seq<Command>>)
    ensures Prefixed(done + [c], left) == Prefixed(done, Prefixed([c], left))
  {
    if left.Some? {
      ConcatAssociates(done, [c], left.value);
    }
  }

  lemma {:induction false} UnfoldCommands(ts: seq<Token>, terms: seq<Term>, n: nat)
    requires ts != [] && terms != [] && ParseTerms(ts) == Done(terms, n)
    ensures ParseCommands(ts) == Prefixed([Command(terms)], ParseCommands(AfterPipe(ts[n..])))
  {
  }

  ghost function Continued<T>(done: seq<T>, size: nat, left: Parsed<seq<T>>): Parsed<seq<T>> {
    if left.Fail? then Fail else Done(done + left.value, size + left.size)
  }

  lemma {:induction false} ContinuedFromStart<T>(left: Parsed<seq<T>>)
    ensures Continued([], 0, left) == left
  {
    if left.Done? {
      assert [] + left.value == left.value;
    }
  }

  lemma {:induction false} ContinuedAssociates<T>(done: seq<T>, size: nat, t: T, n: nat, left: Parsed<seq<T>>)
    ensures Continued(done + [t], size + n, left) == Continued(done, size, Continued([t], n, left))
  {
    if left.Done? {
      ConcatAssociates(done, [t], left.value);
    }
  }

  lemma {:induction false} UnfoldTerms(ts: seq<Token>)
    requires ts != [] && ts[0] != Pipe
    ensures var first := ParseTerm(ts);
            ParseTerms(ts) ==
            if first.Fail? then Fail else Continued([first.value], first.size, ParseTerms(ts[first.size..]))
  {
  }
}
