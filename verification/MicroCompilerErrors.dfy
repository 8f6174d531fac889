/**
  How much of the text decides what the parser returns: a result at some position,
  be it a value or an error, needs the text up to the character there and nothing
  behind it; and the parser runs out of the text exactly if more text would matter.
 */
module MicroCompilerErrors {
  import opened Wrappers
  import opened MicroCompiler

  /** The result in a text compared with the result in its first k characters. */
  ghost predicate Cut<T(!new)>(r: Parsed<T>, short: Parsed<T>, k: nat) {
    match r
    case Ok(_, p) => if p < k then short == r else short == Fail(IndexOutOfRange) || (p == k && short == r)
    case Fail(SyntaxError(p)) => short == if p < k then r else Fail(IndexOutOfRange)
    case Fail(IndexOutOfRange) => short == r
  }

  /** The same for routines that have seen the character at which they stop. */
  ghost predicate CutExactly<T(!new)>(r: Parsed<T>, short: Parsed<T>, k: nat) {
    Cut(r, short, k) && (r.Ok? && r.position == k ==> short == Fail(IndexOutOfRange))
  }

  /** What comes first is cut; if it succeeds, its successor goes on from there. */
  lemma CutThen<T(!new), U(!new)>(first: Parsed<T>, short: Parsed<T>, rest: Parsed<U>, shortRest: Parsed<U>, k: nat)
    requires Cut(first, short, k) && first.Ok?
    requires rest.Ok? ==> first.position <= rest.position
    requires rest.Fail? && rest.error.SyntaxError? ==> first.position <= rest.error.position
    requires first.position <= k ==> CutExactly(rest, shortRest, k)
    requires first.position == k ==> shortRest == Fail(IndexOutOfRange)
    ensures CutExactly(rest, if short.Ok? then shortRest else Fail(short.error), k)
  {
  }

  lemma {:induction false} SkipCut(skipped: char -> bool, s: string, pos: nat, k: nat)
    requires pos <= k <= |s|
    ensures Skip(skipped, s[..k], pos) == if Skip(skipped, s, pos) < k then Skip(skipped, s, pos) else k
    decreases |s| - pos
  {
    if pos < k && skipped(s[pos]) {
      SkipCut(skipped, s, pos + 1, k);
    }
  }

  lemma NumberCut(t: Platform, s: string, pos: nat, k: nat)
    requires pos <= k <= |s|
    ensures CutExactly(NumberAt(t, s, pos), NumberAt(t, s[..k], pos), k)
  {
    var first := if pos < |s| && s[pos] == '-' then pos + 1 else pos;
    if first < k {
      SkipCut(t.digit, s, first + 1, k);
      var end := Skip(t.digit, s, first + 1);
      if end < k {
        Prefix(s, pos, end, k);
      }
    }
  }

  lemma Prefix(s: string, a: nat, b: nat, k: nat)
    requires a <= b <= k <= |s|
    ensures s[..k][a..b] == s[a..b]
  {
  }

  lemma TextCut(s: string, pos: nat, k: nat)
    requires pos <= k <= |s|
    ensures Cut(TextAt(s, pos), TextAt(s[..k], pos), k)
  {
    if pos < k {
      SkipCut(TEXT_CHARS, s, pos + 1, k);
      var end := Skip(TEXT_CHARS, s, pos + 1);
      if end < k {
        Prefix(s, pos + 1, end, k);
      }
    }
  }

  lemma {:induction false} MemberCut(t: Platform, s: string, pos: nat, parent: Expression, k: nat)
    requires pos <= k <= |s|
    ensures Cut(MemberAt(t, s, pos, parent), MemberAt(t, s[..k], pos, parent), k)
    decreases |s| - pos, 1
  {
    SkipCut(NameChars(t), s, pos, k);
    var end := Skip(NameChars(t), s, pos);
    if end >= k || s[end] != '(' {
      PropertyCut(t, s, pos, parent, k);
    } else {
      Prefix(s, pos, end, k);
      MemberIsCall(t, s, pos, end, parent);
      MemberIsCall(t, s[..k], pos, end, parent);
      CallCut(t, s, end + 1, parent, s[pos..end], k);
    }
  }

  lemma PropertyCut(t: Platform, s: string, pos: nat, parent: Expression, k: nat)
    requires pos <= k <= |s| && var end := Skip(NameChars(t), s, pos); end >= k || s[end] != '('
    ensures Cut(MemberAt(t, s, pos, parent), MemberAt(t, s[..k], pos, parent), k)
  {
    SkipCut(NameChars(t), s, pos, k);
    var end := Skip(NameChars(t), s, pos);
    if end < k {
      Prefix(s, pos, end, k);
    }
  }

  /** What is left of a call behind its opening parenthesis. */
  function CallAt(t: Platform, s: string, pos: nat, parent: Expression, name: string): Parsed<Expression>
    requires pos <= |s|
  {
    var p := Skip(t.white, s, pos);
    if p >= |s| then Fail(IndexOutOfRange)
    else if s[p] == ')' then Ok(MethodExpression(parent, name, []), p + 1)
    else Closed(s, parent, name, ArgsAt(t, s, p, []))
  }

  function Closed(s: string, parent: Expression, name: string, args: Parsed<seq<Expression>>): Parsed<Expression>
    requires args.Ok? ==> args.position < |s|
  {
    match args
    case Fail(e) => Fail(e)
    case Ok(values, q) => if s[q] != ')' then Fail(SyntaxError(q)) else Ok(MethodExpression(parent, name, values), q + 1)
  }

  lemma MemberIsCall(t: Platform, s: string, pos: nat, end: nat, parent: Expression)
    requires pos <= end < |s| && end == Skip(NameChars(t), s, pos) && s[end] == '('
    ensures MemberAt(t, s, pos, parent) == CallAt(t, s, end + 1, parent, s[pos..end])
  {
  }

  lemma {:induction false} CallCut(t: Platform, s: string, pos: nat, parent: Expression, name: string, k: nat)
    requires pos <= k <= |s|
    ensures Cut(CallAt(t, s, pos, parent, name), CallAt(t, s[..k], pos, parent, name), k)
    decreases |s| - pos, 5
  {
    SkipCut(t.white, s, pos, k);
    var p := Skip(t.white, s, pos);
    if p < k && s[p] != ')' {
      ArgsCut(t, s, p, [], k);
    }
  }

  /** What is left of an argument list behind an argument. */
  function MoreArgsAt(t: Platform, s: string, pos: nat, args: seq<Expression>): (r: Parsed<seq<Expression>>)
    requires pos <= |s|
    ensures r.Ok? ==> pos <= r.position < |s|
    ensures r.Fail? && r.error.SyntaxError? ==> pos <= r.error.position < |s|
  {
    var q := Skip(t.white, s, pos);
    if q >= |s| then Fail(IndexOutOfRange)
    else if s[q] != ',' then Ok(args, q)
    else ArgsAt(t, s, q + 1, args)
  }

  lemma ArgsGoOn(t: Platform, s: string, pos: nat, before: seq<Expression>)
    requires pos <= |s|
    ensures var arg := ExpressionAt(t, s, pos);
            ArgsAt(t, s, pos, before) == if arg.Ok? then MoreArgsAt(t, s, arg.position, before + [arg.value]) else Fail(arg.error)
  {
  }

  lemma {:induction false} MoreArgsCut(t: Platform, s: string, pos: nat, args: seq<Expression>, k: nat)
    requires pos <= k <= |s|
    ensures CutExactly(MoreArgsAt(t, s, pos, args), MoreArgsAt(t, s[..k], pos, args), k)
    ensures pos == k ==> MoreArgsAt(t, s[..k], pos, args) == Fail(IndexOutOfRange)
    decreases |s| - pos, 5
  {
    SkipCut(t.white, s, pos, k);
    var q := Skip(t.white, s, pos);
    if q < k && s[q] == ',' {
      ArgsCut(t, s, q + 1, args, k);
    }
  }

  lemma {:induction false} ArgsCut(t: Platform, s: string, pos: nat, before: seq<Expression>, k: nat)
    requires pos <= k <= |s|
    ensures CutExactly(ArgsAt(t, s, pos, before), ArgsAt(t, s[..k], pos, before), k)
    decreases |s| - pos, 4
  {
    ArgsGoOn(t, s, pos, before);
    ArgsGoOn(t, s[..k], pos, before);
    ExpressionCut(t, s, pos, k);
    var arg, short := ExpressionAt(t, s, pos), ExpressionAt(t, s[..k], pos);
    if arg.Ok? {
      var args := before + [arg.value];
      var rest := MoreArgsAt(t, s, arg.position, args);
      if arg.position <= k {
        MoreArgsCut(t, s, arg.position, args, k);
        CutThen(arg, short, rest, MoreArgsAt(t, s[..k], arg.position, args), k);
      } else {
        CutThen(arg, short, rest, rest, k);
      }
    }
  }

  /** What is left of an expression in parentheses behind the opening one. */
  function GroupAt(t: Platform, s: string, pos: nat): Parsed<Expression>
    requires pos <= |s|
  {
    match ExpressionAt(t, s, Skip(t.white, s, pos))
    case Fail(e) => Fail(e)
    case Ok(e, p) => if s[p] != ')' then Fail(SyntaxError(p)) else Ok(e, p + 1)
  }

  lemma {:induction false} GroupCut(t: Platform, s: string, pos: nat, k: nat)
    requires pos <= k <= |s|
    ensures Cut(GroupAt(t, s, pos), GroupAt(t, s[..k], pos), k)
    decreases |s| - pos, 4
  {
    SkipCut(t.white, s, pos, k);
    var inner := Skip(t.white, s, pos);
    if inner <= k {
      ExpressionCut(t, s, inner, k);
    }
  }

  /** The routine that the first character of an expression chooses. */
  lemma HeadIsChosen(t: Platform, s: string, pos: nat)
    requires pos < |s|
    ensures HeadAt(t, s, pos) ==
            if t.StartsName(s[pos]) then MemberAt(t, s, pos, Scope)
            else if s[pos] == '"' then TextAt(s, pos)
            else if t.digit(s[pos]) || s[pos] == '-' then NumberAt(t, s, pos)
            else if s[pos] == '(' then GroupAt(t, s, pos + 1)
            else Fail(SyntaxError(pos))
  {
  }

  lemma {:induction false} HeadCut(t: Platform, s: string, pos: nat, k: nat)
    requires pos < k <= |s|
    ensures Cut(HeadAt(t, s, pos), HeadAt(t, s[..k], pos), k)
    decreases |s| - pos, 2
  {
    HeadIsChosen(t, s, pos);
    HeadIsChosen(t, s[..k], pos);
    MemberCut(t, s, pos, Scope, k);
    TextCut(s, pos, k);
    NumberCut(t, s, pos, k);
    GroupCut(t, s, pos + 1, k);
  }

  lemma ChainGoesOn(t: Platform, s: string, pos: nat, e: Expression)
    requires pos < |s| && s[pos] == '.'
    ensures var member := MemberAt(t, s, pos + 1, e);
            ChainAt(t, s, pos, e) == if member.Ok? then ChainAt(t, s, member.position, member.value) else member
  {
  }

  lemma {:induction false} ChainCut(t: Platform, s: string, pos: nat, e: Expression, k: nat)
    requires pos <= k <= |s|
    ensures CutExactly(ChainAt(t, s, pos, e), ChainAt(t, s[..k], pos, e), k)
    decreases |s| - pos, 2
  {
    if pos < k && s[pos] == '.' {
      ChainGoesOn(t, s, pos, e);
      ChainGoesOn(t, s[..k], pos, e);
      MemberCut(t, s, pos + 1, e, k);
      var member := MemberAt(t, s, pos + 1, e);
      if member.Ok? {
        MembersCut(t, s, member, MemberAt(t, s[..k], pos + 1, e), k);
      }
    } else {
      ChainStops(t, s, pos, e, k);
    }
  }

  lemma ChainStops(t: Platform, s: string, pos: nat, e: Expression, k: nat)
    requires pos <= k <= |s| && (pos < k ==> s[pos] != '.')
    ensures CutExactly(ChainAt(t, s, pos, e), ChainAt(t, s[..k], pos, e), k)
  {
  }

  lemma {:induction false} MembersCut(t: Platform, s: string, member: Parsed<Expression>, short: Parsed<Expression>, k: nat)
    requires k <= |s| && member.Ok? && member.position <= |s| && Cut(member, short, k)
    ensures CutExactly(ChainAt(t, s, member.position, member.value),
                       if short.Ok? then ChainAt(t, s[..k], short.position, short.value) else short, k)
    decreases |s| - member.position, 3
  {
    var rest := ChainAt(t, s, member.position, member.value);
    if member.position <= k {
      ChainCut(t, s, member.position, member.value, k);
      CutThen(member, short, rest, ChainAt(t, s[..k], member.position, member.value), k);
    } else {
      CutThen(member, short, rest, rest, k);
    }
  }

  lemma {:induction false} ExpressionCut(t: Platform, s: string, pos: nat, k: nat)
    requires pos <= k <= |s|
    ensures CutExactly(ExpressionAt(t, s, pos), ExpressionAt(t, s[..k], pos), k)
    decreases |s| - pos, 3
  {
    SkipCut(t.white, s, pos, k);
    var p := Skip(t.white, s, pos);
    if p < k {
      HeadCut(t, s, p, k);
      match HeadAt(t, s, p)
      case Fail(_) =>
      case Ok(head, q) =>
        if q <= k {
          ChainCut(t, s, q, head, k);
        }
    }
  }

  /**
    Where the parser decides: a result at a position, a value or a syntax error, is the
    result in every part of the text that includes the character there, and in a shorter
    part the parser runs out of the text.
   */
  lemma DecidesAtPosition(t: Platform, s: string, pos: nat, k: nat)
    requires pos <= k <= |s|
    ensures var r, short := ExpressionAt(t, s, pos), ExpressionAt(t, s[..k], pos);
            match r
            case Ok(_, p) => pos <= p < |s| && short == if p < k then r else Fail(IndexOutOfRange)
            case Fail(SyntaxError(p)) => pos <= p < |s| && short == if p < k then r else Fail(IndexOutOfRange)
            case Fail(IndexOutOfRange) => short == r
  {
    ExpressionCut(t, s, pos, k);
  }

  // ---------- Enough text ----------

  /** Behind the first n characters there are three quotes. */
  ghost predicate Quoted(s: string, n: nat) {
    |s| == n + 3 && forall i :: n <= i < |s| ==> s[i] == '"'
  }

  /** Not out of the text: a syntax error, or a value that ends in front of the last quote. */
  ghost predicate Decided<T(!new)>(r: Parsed<T>, n: nat) {
    match r
    case Ok(_, p) => p <= n + 2
    case Fail(e) => e != IndexOutOfRange
  }

  lemma {:induction false} SkipQuoted(skipped: char -> bool, s: string, pos: nat, n: nat)
    requires Quoted(s, n) && pos <= n + 2 && !skipped('"')
    ensures Skip(skipped, s, pos) <= if pos <= n then n else pos
    decreases |s| - pos
  {
    if skipped(s[pos]) {
      SkipQuoted(skipped, s, pos + 1, n);
    }
  }

  lemma TokensQuoted(t: Platform, s: string, pos: nat, n: nat)
    requires t.Sane() && Quoted(s, n) && pos <= n
    ensures Decided(NumberAt(t, s, pos), n) && Decided(TextAt(s, pos), n)
  {
    assert Punctuation('"');
    var first := if s[pos] == '-' then pos + 1 else pos;
    SkipQuoted(t.digit, s, first + 1, n);
    if pos < n && s[pos] == '"' {
      ClosingQuote(s, pos + 1, n);
    }
  }

  lemma {:induction false} ClosingQuote(s: string, pos: nat, n: nat)
    requires Quoted(s, n) && pos <= n
    ensures Skip(TEXT_CHARS, s, pos) <= n
  {
    SkipQuoted(TEXT_CHARS, s, pos, n);
  }

  lemma {:induction false} MemberQuoted(t: Platform, s: string, pos: nat, parent: Expression, n: nat)
    requires t.Sane() && Quoted(s, n) && pos <= n
    ensures Decided(MemberAt(t, s, pos, parent), n)
    decreases |s| - pos, 1
  {
    assert Punctuation('"');
    SkipQuoted(NameChars(t), s, pos, n);
    var end := Skip(NameChars(t), s, pos);
    if s[end] == '(' {
      MemberIsCall(t, s, pos, end, parent);
      SkipQuoted(t.white, s, end + 1, n);
      if s[Skip(t.white, s, end + 1)] != ')' {
        ArgsQuoted(t, s, Skip(t.white, s, end + 1), [], n);
      }
    }
  }

  lemma {:induction false} ArgsQuoted(t: Platform, s: string, pos: nat, before: seq<Expression>, n: nat)
    requires t.Sane() && Quoted(s, n) && pos <= n
    ensures Decided(ArgsAt(t, s, pos, before), n)
    decreases |s| - pos, 4
  {
    assert Punctuation('"');
    ExpressionQuoted(t, s, pos, n);
    match ExpressionAt(t, s, pos)
    case Fail(_) =>
    case Ok(arg, p) =>
      SkipQuoted(t.white, s, p, n);
      if s[Skip(t.white, s, p)] == ',' {
        ArgsQuoted(t, s, Skip(t.white, s, p) + 1, before + [arg], n);
      }
  }

  lemma {:induction false} HeadQuoted(t: Platform, s: string, pos: nat, n: nat)
    requires t.Sane() && Quoted(s, n) && pos <= n
    ensures Decided(HeadAt(t, s, pos), n)
    decreases |s| - pos, 2
  {
    HeadIsChosen(t, s, pos);
    MemberQuoted(t, s, pos, Scope, n);
    TokensQuoted(t, s, pos, n);
    if s[pos] == '(' {
      assert Punctuation('"');
      SkipQuoted(t.white, s, pos + 1, n);
      ExpressionQuoted(t, s, Skip(t.white, s, pos + 1), n);
    }
  }

  lemma {:induction false} ChainQuoted(t: Platform, s: string, pos: nat, e: Expression, n: nat)
    requires t.Sane() && Quoted(s, n) && pos <= n + 2
    ensures Decided(ChainAt(t, s, pos, e), n)
    decreases |s| - pos, 2
  {
    if s[pos] == '.' {
      ChainGoesOn(t, s, pos, e);
      MemberQuoted(t, s, pos + 1, e, n);
      var member := MemberAt(t, s, pos + 1, e);
      if member.Ok? {
        ChainQuoted(t, s, member.position, member.value, n);
      }
    }
  }

  lemma {:induction false} ExpressionQuoted(t: Platform, s: string, pos: nat, n: nat)
    requires t.Sane() && Quoted(s, n) && pos <= n
    ensures Decided(ExpressionAt(t, s, pos), n)
    decreases |s| - pos, 3
  {
    assert Punctuation('"');
    SkipQuoted(t.white, s, pos, n);
    var p := Skip(t.white, s, pos);
    HeadQuoted(t, s, p, n);
    var head := HeadAt(t, s, p);
    if head.Ok? {
      ChainQuoted(t, s, head.position, head.value, n);
    }
  }

  /** The parser runs out of the text exactly if what follows the text matters. */
  lemma RunsOutExactly(t: Platform, s: string, pos: nat)
    requires t.Sane() && pos <= |s|
    ensures ExpressionAt(t, s, pos) == Fail(IndexOutOfRange) <==>
            exists more :: ExpressionAt(t, s + more, pos) != ExpressionAt(t, s, pos)
  {
    if ExpressionAt(t, s, pos) == Fail(IndexOutOfRange) {
      var more := ['"', '"', '"'];
      ExpressionQuoted(t, s + more, pos, |s|);
      assert ExpressionAt(t, s + more, pos) != ExpressionAt(t, s, pos);
    } else {
      forall more ensures ExpressionAt(t, s + more, pos) == ExpressionAt(t, s, pos) {
        DecidesAtPosition(t, s + more, pos, |s|);
        assert (s + more)[..|s|] == s;
      }
    }
  }
}
