/**
  The parser accepts exactly the texts that some layout shows, and parsing undoes
  printing for every expression that can be written down.
 */
module MicroCompilerRoundTrip {
  import opened Wrappers
  import opened MicroCompiler
  import opened MicroCompilerPrinter
  import opened Sequences

  // ---------- What is read can be shown ----------

  lemma ReadNumber(t: Platform, s: string, pos: nat) returns (c: Layout)
    requires pos < |s| && NumberAt(t, s, pos).Ok? && (s[pos] == '-' || t.digit(s[pos]))
    ensures var r := NumberAt(t, s, pos);
            Readable(t, c) && Show(c) == s[pos..r.position] && Denote(t, c) == r.value && EndsBefore(t, c, s[r.position])
  {
    var first := if s[pos] == '-' then pos + 1 else pos;
    var end := Skip(t.digit, s, first + 1);
    SkipStops(t.digit, s, first + 1);
    c := NumberLayout(s[pos..end]);
  }

  lemma ReadText(t: Platform, s: string, pos: nat) returns (c: Layout)
    requires pos < |s| && TextAt(s, pos).Ok?
    ensures var r := TextAt(s, pos);
            Readable(t, c) && Show(c) == s[pos..r.position] && Denote(t, c) == r.value && c.TextLayout?
  {
    var end := Skip(TEXT_CHARS, s, pos + 1);
    SkipStops(TEXT_CHARS, s, pos + 1);
    c := TextLayout(s[pos + 1..end]);
    assert s[pos..end + 1] == "\"" + s[pos + 1..end] + "\"";
  }

  lemma {:induction false} ReadMember(t: Platform, s: string, pos: nat, parent: Expression) returns (m: Member)
    requires pos <= |s| && MemberAt(t, s, pos, parent).Ok?
    ensures var r := MemberAt(t, s, pos, parent);
            && ReadableMember(t, m) && ShowMember(m) == s[pos..r.position] && DenoteMember(t, parent, m) == r.value
            && (r.position < |s| ==> EndsMember(t, m, s[r.position]))
    ensures pos < |s| && t.InName(s[pos]) ==> m.name != "" && m.name[0] == s[pos]
    decreases |s| - pos, 1
  {
    var end := Skip(NameChars(t), s, pos);
    SkipStops(NameChars(t), s, pos);
    if s[end] != '(' {
      m := Plain(s[pos..end]);
    } else {
      m := ReadCall(t, s, pos, end, parent);
    }
  }

  lemma {:induction false} ReadCall(t: Platform, s: string, pos: nat, end: nat, parent: Expression) returns (m: Member)
    requires pos <= |s| && MemberAt(t, s, pos, parent).Ok?
    requires end == Skip(NameChars(t), s, pos) && end < |s| && s[end] == '(' && IsName(t, s[pos..end])
    ensures var r := MemberAt(t, s, pos, parent);
            ReadableMember(t, m) && ShowMember(m) == s[pos..r.position] && DenoteMember(t, parent, m) == r.value
    ensures m.Call? && m.name == s[pos..end]
    decreases |s| - pos, 0
  {
    var values, close := CallCases(t, s, pos, end, parent);
    var args := ReadArgList(t, s, end + 1, values, close);
    m := Call(s[pos..end], args);
    CallText(s, pos, end, close, ShowArgs(args));
  }

  /** What a successful call looks like behind its name. */
  lemma CallCases(t: Platform, s: string, pos: nat, end: nat, parent: Expression)
    returns (values: seq<Expression>, close: nat)
    requires pos <= |s| && MemberAt(t, s, pos, parent).Ok?
    requires end == Skip(NameChars(t), s, pos) && end < |s| && s[end] == '('
    ensures end < close < |s| && s[close] == ')'
    ensures MemberAt(t, s, pos, parent) == Ok(MethodExpression(parent, s[pos..end], values), close + 1)
    ensures IsArgList(t, s, end + 1, values, close)
  {
    var p := Skip(t.white, s, end + 1);
    if s[p] == ')' {
      values, close := [], p;
    } else {
      values, close := ArgsAt(t, s, p, []).value, ArgsAt(t, s, p, []).position;
    }
  }

  ghost predicate IsArgList(t: Platform, s: string, pos: nat, values: seq<Expression>, close: nat) {
    && pos <= |s|
    && var p := Skip(t.white, s, pos);
       p < |s| && if s[p] == ')' then values == [] && close == p else ArgsAt(t, s, p, []) == Ok(values, close)
  }

  lemma CallText(s: string, pos: nat, open: nat, close: nat, args: string)
    requires pos <= open < close < |s| && s[open] == '(' && s[close] == ')' && args == s[open + 1..close]
    ensures s[pos..close + 1] == s[pos..open] + ("(" + (args + ")"))
  {
  }

  lemma GroupText(s: string, pos: nat, inner: nat, close: nat, lead: string, shown: string)
    requires pos < inner <= close < |s| && s[pos] == '(' && s[close] == ')' && s[inner..close] == lead + shown
    ensures s[pos..close + 1] == "(" + ((s[pos + 1..inner] + lead) + (shown + ")"))
  {
    Slices(s, pos + 1, inner, close);
    assert s[pos..close + 1] == "(" + (s[pos + 1..close] + ")");
    assert (s[pos + 1..inner] + (lead + shown)) + ")" == (s[pos + 1..inner] + lead) + (shown + ")");
  }

  lemma LastArgText(s: string, pos: nat, p: nat, stop: nat, lead: string, shown: string)
    requires pos <= p <= stop <= |s| && s[pos..p] == lead + shown
    ensures s[pos..stop] == lead + (shown + s[p..stop])
  {
    Slices(s, pos, p, stop);
    assert (lead + shown) + s[p..stop] == lead + (shown + s[p..stop]);
  }

  lemma MoreArgsText(s: string, pos: nat, p: nat, stop: nat, end: nat, lead: string, shown: string, rest: string)
    requires pos <= p <= stop < end <= |s| && s[pos..p] == lead + shown && s[stop] == ',' && rest == s[stop + 1..end]
    ensures s[pos..end] == lead + (shown + (s[p..stop] + ("," + rest)))
  {
    LastArgText(s, pos, p, end, lead, shown);
    Slices(s, p, stop, end);
    assert s[stop..end] == "," + rest;
  }

  /** The argument list between the parentheses. */
  lemma {:induction false} ReadArgList(t: Platform, s: string, pos: nat, values: seq<Expression>, close: nat) returns (args: Args)
    requires IsArgList(t, s, pos, values, close) && close < |s|
    ensures pos <= close && ReadableArgs(t, args) && ShowArgs(args) == s[pos..close] && DenoteArgs(t, args) == values
    decreases |s| - pos, 5
  {
    var p := Skip(t.white, s, pos);
    SkipStops(t.white, s, pos);
    if s[p] == ')' {
      args := NoArgs(s[pos..p]);
    } else {
      var first := ReadArgs(t, s, p, []);
      assert [] + DenoteArgs(t, first) == DenoteArgs(t, first);
      args := Indent(s[pos..p], first);
      IndentedArgs(t, s[pos..p], first);
      Slices(s, pos, p, close);
    }
  }

  /** More white space in front of the first argument. */
  function Indent(blank: string, args: Args): Args {
    match args
    case NoArgs(b) => NoArgs(blank + b)
    case LastArg(lead, arg, trail) => LastArg(blank + lead, arg, trail)
    case MoreArgs(lead, arg, trail, rest) => MoreArgs(blank + lead, arg, trail, rest)
  }

  lemma IndentedArgs(t: Platform, blank: string, args: Args)
    requires All(t.white, blank) && ReadableArgs(t, args)
    ensures ReadableArgs(t, Indent(blank, args)) && DenoteArgs(t, Indent(blank, args)) == DenoteArgs(t, args)
    ensures ShowArgs(Indent(blank, args)) == blank + ShowArgs(args)
  {
    match args
    case NoArgs(_) =>
    case LastArg(lead, arg, trail) =>
      assert (blank + lead) + (Show(arg) + trail) == blank + (lead + (Show(arg) + trail));
    case MoreArgs(lead, arg, trail, rest) =>
      var behind := Show(arg) + (trail + ("," + ShowArgs(rest)));
      assert (blank + lead) + behind == blank + (lead + behind);
  }

  lemma {:induction false} ReadArgs(t: Platform, s: string, pos: nat, before: seq<Expression>) returns (args: Args)
    requires pos <= |s| && ArgsAt(t, s, pos, before).Ok?
    ensures var r := ArgsAt(t, s, pos, before);
            && ReadableArgs(t, args) && !args.NoArgs? && ShowArgs(args) == s[pos..r.position]
            && r.value == before + DenoteArgs(t, args)
    decreases |s| - pos, 4
  {
    var p := ExpressionAt(t, s, pos).position;
    var stop := Skip(t.white, s, p);
    if s[stop] != ',' {
      var lead, arg := ReadExpression(t, s, pos);
      SkipStops(t.white, s, p);
      args := LastArg(lead, arg, s[p..stop]);
      LastArgText(s, pos, p, stop, lead, Show(arg));
    } else {
      var e := ExpressionAt(t, s, pos).value;
      var r := ArgsAt(t, s, stop + 1, before + [e]);
      args := ReadMoreArgs(t, s, pos, before, e, p, stop, r.value, r.position);
    }
  }

  lemma {:induction false} ReadMoreArgs(t: Platform, s: string, pos: nat, before: seq<Expression>,
                                        e: Expression, p: nat, stop: nat, all: seq<Expression>, end: nat) returns (args: Args)
    requires pos <= |s| && ExpressionAt(t, s, pos) == Ok(e, p)
    requires p <= |s| && stop == Skip(t.white, s, p) < |s| && s[stop] == ','
    requires ArgsAt(t, s, stop + 1, before + [e]) == Ok(all, end)
    ensures pos <= end <= |s| && ReadableArgs(t, args) && !args.NoArgs? && ShowArgs(args) == s[pos..end]
    ensures all == before + DenoteArgs(t, args)
    decreases |s| - pos, 3, 1
  {
    var rest := ReadArgs(t, s, stop + 1, before + [e]);
    var lead, arg := ReadExpression(t, s, pos);
    SkipStops(t.white, s, p);
    args := JoinArgs(t, lead, arg, s[p..stop], rest);
    MoreArgsText(s, pos, p, stop, end, lead, Show(arg), ShowArgs(rest));
    Associates(before, [e], DenoteArgs(t, rest));
  }

  lemma JoinArgs(t: Platform, lead: string, arg: Layout, trail: string, rest: Args) returns (args: Args)
    requires All(t.white, lead) && Readable(t, arg) && All(t.white, trail) && ReadableArgs(t, rest) && !rest.NoArgs?
    ensures ReadableArgs(t, args) && args.MoreArgs? && DenoteArgs(t, args) == [Denote(t, arg)] + DenoteArgs(t, rest)
    ensures ShowArgs(args) == lead + (Show(arg) + (trail + ("," + ShowArgs(rest))))
  {
    args := MoreArgs(lead, arg, trail, rest);
  }

  lemma Slices(s: string, a: nat, b: nat, c: nat)
    requires a <= b <= c <= |s|
    ensures s[a..c] == s[a..b] + s[b..c]
  {
  }

  lemma {:induction false} ReadHead(t: Platform, s: string, pos: nat) returns (c: Layout)
    requires pos < |s| && HeadAt(t, s, pos).Ok?
    ensures var r := HeadAt(t, s, pos);
            && Readable(t, c) && Show(c) == s[pos..r.position] && Denote(t, c) == r.value
            && (r.position < |s| ==> EndsBefore(t, c, s[r.position]))
    decreases |s| - pos, 2
  {
    if t.StartsName(s[pos]) {
      var m := ReadMember(t, s, pos, Scope);
      c := ScopeLayout(m);
    } else if s[pos] == '"' {
      c := ReadText(t, s, pos);
    } else if t.digit(s[pos]) || s[pos] == '-' {
      c := ReadNumber(t, s, pos);
    } else {
      c := ReadGroup(t, s, pos);
    }
  }

  lemma {:induction false} ReadGroup(t: Platform, s: string, pos: nat) returns (c: Layout)
    requires pos < |s| && s[pos] == '('
    requires var inner := Skip(t.white, s, pos + 1);
             var r := ExpressionAt(t, s, inner); r.Ok? && s[r.position] == ')'
    ensures var r := ExpressionAt(t, s, Skip(t.white, s, pos + 1));
            c.GroupLayout? && Readable(t, c) && Show(c) == s[pos..r.position + 1] && Denote(t, c) == r.value
    decreases |s| - pos, 1
  {
    var inner := Skip(t.white, s, pos + 1);
    SkipStops(t.white, s, pos + 1);
    var lead, core := ReadExpression(t, s, inner);
    c := GroupLayout(s[pos + 1..inner] + lead, core);
    GroupText(s, pos, inner, ExpressionAt(t, s, inner).position, lead, Show(core));
  }

  lemma {:induction false} ReadChain(t: Platform, s: string, start: nat, pos: nat, target: Layout) returns (c: Layout)
    requires start <= pos < |s| && Readable(t, target) && Show(target) == s[start..pos] && EndsBefore(t, target, s[pos])
    requires ChainAt(t, s, pos, Denote(t, target)).Ok?
    ensures var r := ChainAt(t, s, pos, Denote(t, target));
            && Readable(t, c) && Show(c) == s[start..r.position] && Denote(t, c) == r.value
            && EndsBefore(t, c, s[r.position])
    decreases |s| - pos, 2
  {
    if s[pos] != '.' {
      c := target;
    } else {
      var e := Denote(t, target);
      var m := ReadMember(t, s, pos + 1, e);
      var end := MemberAt(t, s, pos + 1, e).position;
      Slices(s, start, pos, end);
      assert s[pos..end] == "." + s[pos + 1..end];
      c := ReadChain(t, s, start, end, DotLayout(target, m));
    }
  }

  lemma {:induction false} ReadExpression(t: Platform, s: string, pos: nat) returns (lead: string, c: Layout)
    requires pos <= |s| && ExpressionAt(t, s, pos).Ok?
    ensures var r := ExpressionAt(t, s, pos);
            && All(t.white, lead) && Readable(t, c) && lead + Show(c) == s[pos..r.position] && Denote(t, c) == r.value
            && EndsBefore(t, c, s[r.position]) && s[r.position] != '.'
    decreases |s| - pos, 3, 0
  {
    var p := Skip(t.white, s, pos);
    SkipStops(t.white, s, pos);
    lead := s[pos..p];
    var head := ReadHead(t, s, p);
    var q := HeadAt(t, s, p).position;
    c := ReadChain(t, s, p, q, head);
    Slices(s, pos, p, ExpressionAt(t, s, pos).position);
  }

  // ---------- The parser and its grammar ----------

  /** The text from pos to q shows the layout behind white space, and what follows does not continue it. */
  ghost predicate Shows(t: Platform, s: string, pos: nat, q: nat, lead: string, c: Layout) {
    && All(t.white, lead) && Readable(t, c)
    && q == pos + |lead| + |Show(c)| < |s| && s[pos..q] == lead + Show(c)
    && EndsBefore(t, c, s[q]) && s[q] != '.'
  }

  /** The parser returns an expression and a position exactly if some layout of that expression ends there. */
  lemma ParserAcceptsExactly(t: Platform, s: string, pos: nat, e: Expression, q: nat)
    requires t.Sane() && pos <= |s|
    ensures ExpressionAt(t, s, pos) == Ok(e, q) <==>
            exists lead, c :: Shows(t, s, pos, q, lead, c) && Denote(t, c) == e
  {
    if ExpressionAt(t, s, pos) == Ok(e, q) {
      var lead, c := ReadExpression(t, s, pos);
      assert |lead + Show(c)| == q - pos;
      assert Shows(t, s, pos, q, lead, c);
    }
    if lead, c :| Shows(t, s, pos, q, lead, c) && Denote(t, c) == e {
      ParsingUndoesShowing(t, s, pos, q, lead, c);
    }
  }

  lemma ParsingUndoesShowing(t: Platform, s: string, pos: nat, q: nat, lead: string, c: Layout)
    requires t.Sane() && pos <= |s| && Shows(t, s, pos, q, lead, c)
    ensures ExpressionAt(t, s, pos) == Ok(Denote(t, c), q)
  {
    AtSlice(s, pos, lead + Show(c));
    AtConcat(s, pos, lead, Show(c));
    ShownSpaced(t, lead, c, s, pos);
  }

  /** The grammar is not ambiguous: layouts with the same text have the same meaning. */
  lemma SameTextSameMeaning(t: Platform, c: Layout, d: Layout)
    requires t.Sane() && Readable(t, c) && Readable(t, d) && Show(c) == Show(d)
    ensures Denote(t, c) == Denote(t, d)
  {
    var s := Show(c) + ")";
    SeparatorEnds(t, c, ')');
    SeparatorEnds(t, d, ')');
    assert s[0..|Show(c)|] == "" + Show(c) == "" + Show(d);
    ParsingUndoesShowing(t, s, 0, |Show(c)|, "", c);
    ParsingUndoesShowing(t, s, 0, |Show(c)|, "", d);
  }

  /** A name of letters, digits and underscores that does not start with a digit is read as that property, in front of a character that does not go on with it. */
  lemma NameIsRead(t: Platform, name: string, front: string, next: char, rest: string)
    requires t.Sane() && name != "" && !t.digit(name[0])
    requires forall i :: 0 <= i < |name| ==> t.letter(name[i]) || t.digit(name[i]) || name[i] == '_'
    requires !t.letter(next) && !t.digit(next) && next != '_' && next != '(' && next != '.'
    ensures ExpressionAt(t, front + name + [next] + rest, |front|) == Ok(PropertyExpression(Scope, name), |front| + |name|)
  {
    var s := front + name + [next] + rest;
    assert s[|front|..|front| + |name|] == "" + name;
    ParsingUndoesShowing(t, s, |front|, |front| + |name|, "", ScopeLayout(Plain(name)));
  }

  // ---------- Decimal numbers ----------

  function IsDecimal(text: string): bool {
    |text| > 0 && forall i :: 0 <= i < |text| ==> '0' <= text[i] <= '9'
  }

  function DecimalValue(text: string): nat
    requires forall i :: 0 <= i < |text| ==> '0' <= text[i] <= '9'
  {
    if text == [] then 0 else 10 * DecimalValue(text[..|text| - 1]) + (text[|text| - 1] as nat - '0' as nat)
  }

  /** The library's conversion of an optional minus sign and decimal digits to a 32-bit integer. */
  function TryParseInt(text: string): Option<int> {
    var digits := if text != [] && text[0] == '-' then text[1..] else text;
    if !IsDecimal(digits) then None
    else
      var value: int := if text[0] == '-' then -(DecimalValue(digits) as int) else DecimalValue(digits);
      if -0x8000_0000 <= value < 0x8000_0000 then Some(value) else None
  }

  function DecimalText(n: nat): (text: string)
    ensures IsDecimal(text)
  {
    var digit := [('0' as int + n % 10) as char];
    if n < 10 then digit else DecimalText(n / 10) + digit
  }

  lemma {:induction false} DecimalTextValue(n: nat)
    ensures DecimalValue(DecimalText(n)) == n
  {
    var text := DecimalText(n);
    if n >= 10 {
      DecimalTextValue(n / 10);
      assert text[..|text| - 1] == DecimalText(n / 10);
    } else {
      assert text[..0] == "";
    }
  }

  function IntText(n: int): string {
    if n < 0 then "-" + DecimalText(-n) else DecimalText(n)
  }

  lemma IntTextParses(n: int)
    requires -0x8000_0000 <= n < 0x8000_0000
    ensures TryParseInt(IntText(n)) == Some(n)
  {
    var digits := DecimalText(if n < 0 then -n else n);
    DecimalTextValue(if n < 0 then -n else n);
    if n < 0 {
      assert IntText(n)[1..] == digits;
    } else {
      assert '0' <= digits[0];
    }
  }

  // ---------- Printing expressions ----------

  /** The expressions that can be written down: names of the right characters, texts without quotes, 32-bit numbers. */
  predicate Printable(t: Platform, e: Expression)
    decreases e, 0
  {
    match e
    case Scope => false
    case ConstantExpression(Text(text)) => '"' !in text
    case ConstantExpression(Number(n)) => -0x8000_0000 <= n < 0x8000_0000
    case PropertyExpression(parent, name) => PrintableMember(t, parent, name)
    case MethodExpression(parent, name, args) => PrintableMember(t, parent, name) && forall a :: a in args ==> Printable(t, a)
  }

  predicate PrintableMember(t: Platform, parent: Expression, name: string)
    decreases parent, 1
  {
    && IsName(t, name)
    && if parent == Scope then name != "" && !t.digit(name[0]) else Printable(t, parent)
  }

  function Arrange(e: Expression): Layout
    decreases e
  {
    match e
    case Scope => TextLayout("")
    case ConstantExpression(Text(text)) => TextLayout(text)
    case ConstantExpression(Number(n)) => NumberLayout(IntText(n))
    case PropertyExpression(parent, name) =>
      if parent == Scope then ScopeLayout(Plain(name)) else DotLayout(Arrange(parent), Plain(name))
    case MethodExpression(parent, name, args) =>
      var m := Call(name, ArrangeArgs(args));
      if parent == Scope then ScopeLayout(m) else DotLayout(Arrange(parent), m)
  }

  function ArrangeArgs(args: seq<Expression>): Args
    decreases args
  {
    if args == [] then NoArgs("")
    else if |args| == 1 then LastArg("", Arrange(args[0]), "")
    else MoreArgs("", Arrange(args[0]), "", ArrangeArgs(args[1..]))
  }

  /** The characters of ASCII form a sane classification. */
  function Ascii(): (t: Platform)
    ensures t.Sane() && t.tryParse == TryParseInt
  {
    Platform(c => 'a' <= c <= 'z' || 'A' <= c <= 'Z', c => '0' <= c <= '9', c => c == ' ' || '\t' <= c <= '\r', TryParseInt)
  }

  lemma {:induction false} ArrangeIsReadable(t: Platform, e: Expression)
    requires t.Sane() && t.tryParse == TryParseInt && Printable(t, e)
    ensures Readable(t, Arrange(e)) && Denote(t, Arrange(e)) == e
    decreases e
  {
    match e
    case ConstantExpression(Text(text)) =>
    case ConstantExpression(Number(n)) =>
      IntTextParses(n);
    case PropertyExpression(parent, name) =>
      if parent != Scope {
        ArrangeIsReadable(t, parent);
      }
    case MethodExpression(parent, name, args) =>
      if parent != Scope {
        ArrangeIsReadable(t, parent);
      }
      ArrangeArgsAreReadable(t, args);
  }

  lemma {:induction false} ArrangeArgsAreReadable(t: Platform, args: seq<Expression>)
    requires t.Sane() && t.tryParse == TryParseInt && forall a :: a in args ==> Printable(t, a)
    ensures ReadableArgs(t, ArrangeArgs(args)) && DenoteArgs(t, ArrangeArgs(args)) == args
    decreases args
  {
    if args != [] {
      ArrangeIsReadable(t, args[0]);
      ArrangeArgsAreReadable(t, args[1..]);
    }
  }

  /**
    Parsing undoes printing: behind any text, in front of a character that neither
    continues a name or number nor starts a call or a member access, the printed
    expression is read back and the parser stops exactly at that character.
   */
  lemma ParsingUndoesPrinting(t: Platform, e: Expression, front: string, next: char, rest: string)
    requires t.Sane() && t.tryParse == TryParseInt && Printable(t, e)
    requires !t.letter(next) && !t.digit(next) && next != '_' && next != '(' && next != '.'
    ensures var printed := Show(Arrange(e));
            ExpressionAt(t, front + printed + [next] + rest, |front|) == Ok(e, |front| + |printed|)
  {
    var c := Arrange(e);
    var s := front + Show(c) + [next] + rest;
    ArrangeIsReadable(t, e);
    assert s[|front|..|front| + |Show(c)|] == "" + Show(c);
    ParsingUndoesShowing(t, s, |front|, |front| + |Show(c)|, "", c);
  }
}
