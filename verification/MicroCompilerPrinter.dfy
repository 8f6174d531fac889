/**
  A printer for the expressions that MicroCompiler reads, with a free choice of
  white space, parentheses and number format, and the proof that the parser
  accepts exactly what can be printed and undoes the printing.
 */
module MicroCompilerPrinter {
  import opened Wrappers
  import opened MicroCompiler
  import opened Sequences

  // ---------- Layouts ----------

  /** An expression as it is laid out in the text, without leading white space. */
  datatype Layout =
    | NumberLayout(text: string)
    | TextLayout(text: string)
    | GroupLayout(lead: string, inner: Layout)
    | ScopeLayout(member: Member)
    | DotLayout(target: Layout, member: Member)

  datatype Member = Plain(name: string) | Call(name: string, args: Args)

  /** Each argument may be surrounded by white space. */
  datatype Args =
    | NoArgs(blank: string)
    | LastArg(lead: string, arg: Layout, trail: string)
    | MoreArgs(lead: string, arg: Layout, trail: string, rest: Args)

  function Show(c: Layout): string {
    match c
    case NumberLayout(text) => text
    case TextLayout(text) => "\"" + text + "\""
    case GroupLayout(lead, inner) => "(" + (lead + (Show(inner) + ")"))
    case ScopeLayout(m) => ShowMember(m)
    case DotLayout(target, m) => Show(target) + ("." + ShowMember(m))
  }

  function ShowMember(m: Member): string {
    match m
    case Plain(name) => name
    case Call(name, args) => name + ("(" + (ShowArgs(args) + ")"))
  }

  function ShowArgs(args: Args): string {
    match args
    case NoArgs(blank) => blank
    case LastArg(lead, arg, trail) => lead + (Show(arg) + trail)
    case MoreArgs(lead, arg, trail, rest) => lead + (Show(arg) + (trail + ("," + ShowArgs(rest))))
  }

  function Denote(t: Platform, c: Layout): Expression
    decreases c
  {
    match c
    case NumberLayout(text) =>
      ConstantExpression(Number(match t.tryParse(text) case None => 0 case Some(n) => n))
    case TextLayout(text) => ConstantExpression(Text(text))
    case GroupLayout(_, inner) => Denote(t, inner)
    case ScopeLayout(m) => DenoteMember(t, Scope, m)
    case DotLayout(target, m) => DenoteMember(t, Denote(t, target), m)
  }

  function DenoteMember(t: Platform, parent: Expression, m: Member): Expression
    decreases m
  {
    match m
    case Plain(name) => PropertyExpression(parent, name)
    case Call(name, args) => MethodExpression(parent, name, DenoteArgs(t, args))
  }

  function DenoteArgs(t: Platform, args: Args): seq<Expression>
    decreases args
  {
    match args
    case NoArgs(_) => []
    case LastArg(_, arg, _) => [Denote(t, arg)]
    case MoreArgs(_, arg, _, rest) => [Denote(t, arg)] + DenoteArgs(t, rest)
  }

  // ---------- Which layouts can be read ----------

  /** What the scanner takes for a number: a minus sign or a digit, and digits after the first character behind the sign. */
  predicate Scannable(t: Platform, text: string) {
    && text != ""
    && (text[0] == '-' || t.digit(text[0]))
    && (text[0] == '-' ==> |text| > 1)
    && forall i :: (if text[0] == '-' then 2 else 1) <= i < |text| ==> t.digit(text[i])
  }

  /** Letters, digits and underscores. */
  predicate IsName(t: Platform, name: string) {
    forall i :: 0 <= i < |name| ==> t.letter(name[i]) || t.digit(name[i]) || name[i] == '_'
  }

  /** Names consist of letters, digits and underscores, and the first name of an expression starts with a letter or an underscore. */
  predicate Readable(t: Platform, c: Layout) {
    match c
    case NumberLayout(text) => Scannable(t, text) && t.tryParse(text).Some?
    case TextLayout(text) => '"' !in text
    case GroupLayout(lead, inner) => All(t.white, lead) && Readable(t, inner)
    case ScopeLayout(m) => m.name != "" && (t.letter(m.name[0]) || m.name[0] == '_') && ReadableMember(t, m)
    case DotLayout(target, m) => Readable(t, target) && ReadableMember(t, m)
  }

  predicate ReadableMember(t: Platform, m: Member) {
    IsName(t, m.name) && (m.Call? ==> ReadableArgs(t, m.args))
  }

  predicate ReadableArgs(t: Platform, args: Args) {
    match args
    case NoArgs(blank) => All(t.white, blank)
    case LastArg(lead, arg, trail) => All(t.white, lead) && Readable(t, arg) && All(t.white, trail)
    case MoreArgs(lead, arg, trail, rest) =>
      All(t.white, lead) && Readable(t, arg) && All(t.white, trail) && !rest.NoArgs? && ReadableArgs(t, rest)
  }

  /** Whether the text of the layout ends in front of the given character. */
  predicate EndsBefore(t: Platform, c: Layout, next: char) {
    match c
    case NumberLayout(_) => !t.digit(next)
    case ScopeLayout(m) => EndsMember(t, m, next)
    case DotLayout(_, m) => EndsMember(t, m, next)
    case _ => true
  }

  predicate EndsMember(t: Platform, m: Member, next: char) {
    m.Plain? ==> !t.letter(next) && !t.digit(next) && next != '_' && next != '('
  }

  // ---------- Text at a position ----------

  predicate At(s: string, pos: nat, text: string) {
    pos + |text| <= |s| && forall i {:trigger text[i]} :: 0 <= i < |text| ==> s[pos + i] == text[i]
  }

  lemma AtConcat(s: string, pos: nat, a: string, b: string)
    ensures At(s, pos, a + b) <==> At(s, pos, a) && At(s, pos + |a|, b)
  {
    if At(s, pos, a + b) {
      forall i | 0 <= i < |a| ensures s[pos + i] == a[i] {
        assert (a + b)[i] == a[i];
      }
      forall i | 0 <= i < |b| ensures s[pos + |a| + i] == b[i] {
        assert (a + b)[|a| + i] == b[i];
      }
    }
  }

  lemma AtSlice(s: string, pos: nat, text: string)
    ensures At(s, pos, text) <==> pos + |text| <= |s| && s[pos..pos + |text|] == text
  {
    if pos + |text| <= |s| && s[pos..pos + |text|] == text {
      forall i | 0 <= i < |text| ensures s[pos + i] == text[i] {
        assert s[pos..pos + |text|][i] == text[i];
      }
    }
  }

  lemma AtChar(s: string, pos: nat, text: string, i: nat)
    requires At(s, pos, text) && i < |text|
    ensures s[pos + i] == text[i]
  {
  }

  predicate All(f: char -> bool, s: string) {
    forall i :: 0 <= i < |s| ==> f(s[i])
  }

  lemma {:induction false} SkipOver(f: char -> bool, s: string, pos: nat, text: string)
    requires At(s, pos, text) && All(f, text)
    ensures Skip(f, s, pos) == Skip(f, s, pos + |text|)
    decreases |text|
  {
    if text != "" {
      AtChar(s, pos, text, 0);
      assert text == text[..1] + text[1..];
      AtConcat(s, pos, text[..1], text[1..]);
      SkipOver(f, s, pos + 1, text[1..]);
    }
  }

  /** Text that is skipped entirely, in front of a character that is not. */
  lemma SkipTo(f: char -> bool, s: string, pos: nat, text: string)
    requires At(s, pos, text) && All(f, text)
    requires pos + |text| < |s| && !f(s[pos + |text|])
    ensures Skip(f, s, pos) == pos + |text|
  {
    SkipOver(f, s, pos, text);
  }

  lemma {:induction false} SkipStops(f: char -> bool, s: string, pos: nat)
    requires pos <= |s|
    ensures var p := Skip(f, s, pos); (p < |s| ==> !f(s[p])) && Skip(f, s, p) == p
    ensures forall k :: pos <= k < Skip(f, s, pos) ==> f(s[k])
    ensures All(f, s[pos..Skip(f, s, pos)])
    decreases |s| - pos
  {
    if pos < |s| && f(s[pos]) {
      SkipStops(f, s, pos + 1);
    }
  }

  // ---------- Single steps of the parser ----------

  /** An expression without the leading white space. */
  function CoreAt(t: Platform, s: string, pos: nat): Parsed<Expression>
    requires pos < |s|
  {
    match HeadAt(t, s, pos)
    case Fail(e) => Fail(e)
    case Ok(head, q) => ChainAt(t, s, q, head)
  }

  lemma ExpressionIsCore(t: Platform, s: string, pos: nat, p: nat)
    requires pos <= |s| && Skip(t.white, s, pos) == p < |s|
    ensures ExpressionAt(t, s, pos) == CoreAt(t, s, p)
  {
  }

  /** White space in front of an expression or an argument list may be skipped twice. */
  lemma SkipsWhite(t: Platform, s: string, pos: nat, before: seq<Expression>)
    requires pos <= |s|
    ensures ExpressionAt(t, s, Skip(t.white, s, pos)) == ExpressionAt(t, s, pos)
    ensures ArgsAt(t, s, Skip(t.white, s, pos), before) == ArgsAt(t, s, pos, before)
  {
    SkipStops(t.white, s, pos);
  }

  lemma GroupStep(t: Platform, s: string, pos: nat, start: nat, close: nat, e: Expression)
    requires t.Sane() && pos < |s| && s[pos] == '('
    requires Skip(t.white, s, pos + 1) == start <= |s| && ExpressionAt(t, s, start) == Ok(e, close)
    requires close < |s| && s[close] == ')'
    ensures HeadAt(t, s, pos) == Ok(e, close + 1)
  {
    assert Punctuation('(');
  }

  lemma HeadIsMember(t: Platform, s: string, pos: nat)
    requires pos < |s| && t.StartsName(s[pos])
    ensures HeadAt(t, s, pos) == MemberAt(t, s, pos, Scope)
  {
  }

  lemma HeadIsNumber(t: Platform, s: string, pos: nat)
    requires t.Sane() && pos < |s| && (t.digit(s[pos]) || s[pos] == '-')
    ensures HeadAt(t, s, pos) == NumberAt(t, s, pos)
  {
    assert Punctuation('-') && Punctuation('_') && Punctuation('"');
  }

  lemma HeadIsText(t: Platform, s: string, pos: nat)
    requires t.Sane() && pos < |s| && s[pos] == '"'
    ensures HeadAt(t, s, pos) == TextAt(s, pos)
  {
    assert Punctuation('"');
  }

  lemma PropertyStep(t: Platform, s: string, pos: nat, end: nat, parent: Expression)
    requires pos <= |s| && Skip(NameChars(t), s, pos) == end < |s| && s[end] != '('
    ensures MemberAt(t, s, pos, parent) == Ok(PropertyExpression(parent, s[pos..end]), end)
  {
  }

  lemma CallStep(t: Platform, s: string, pos: nat, end: nat, p: nat, close: nat, parent: Expression, args: seq<Expression>)
    requires pos <= |s| && Skip(NameChars(t), s, pos) == end < |s| && s[end] == '('
    requires Skip(t.white, s, end + 1) == p < |s| && close < |s| && s[close] == ')'
    requires if s[p] == ')' then args == [] && close == p else ArgsAt(t, s, p, []) == Ok(args, close)
    ensures MemberAt(t, s, pos, parent) == Ok(MethodExpression(parent, s[pos..end], args), close + 1)
  {
  }

  lemma ArgStep(t: Platform, s: string, pos: nat, before: seq<Expression>, arg: Expression, end: nat, stop: nat)
    requires pos <= |s| && ExpressionAt(t, s, pos) == Ok(arg, end)
    requires end <= |s| && Skip(t.white, s, end) == stop < |s|
    ensures ArgsAt(t, s, pos, before) ==
            if s[stop] == ',' then ArgsAt(t, s, stop + 1, before + [arg]) else Ok(before + [arg], stop)
  {
  }

  lemma DotStep(t: Platform, s: string, pos: nat, dot: nat, e: Expression, member: Expression, q: nat)
    requires pos < |s| && dot < |s| && CoreAt(t, s, pos) == ChainAt(t, s, dot, e)
    requires s[dot] == '.' && MemberAt(t, s, dot + 1, e) == Ok(member, q)
    ensures CoreAt(t, s, pos) == ChainAt(t, s, q, member)
  {
  }

  // ---------- What is shown is read back ----------

  /** A layout starts with a character by which the parser recognises it. */
  lemma {:induction false} FirstChar(t: Platform, c: Layout)
    requires t.Sane() && Readable(t, c)
    ensures Show(c) != ""
    ensures var first := Show(c)[0]; !t.white(first) && first != ')'
    ensures c.ScopeLayout? ==> t.StartsName(Show(c)[0])
  {
    assert Punctuation('"') && Punctuation('(') && Punctuation(')') && Punctuation('-') && Punctuation('_');
    match c
    case DotLayout(target, m) => FirstChar(t, target);
    case _ =>
  }

  lemma NumberStep(t: Platform, s: string, pos: nat, first: nat, end: nat, n: int)
    requires pos < |s| && first == (if s[pos] == '-' then pos + 1 else pos) && first < |s|
    requires Skip(t.digit, s, first + 1) == end < |s| && t.tryParse(s[pos..end]) == Some(n)
    ensures NumberAt(t, s, pos) == Ok(ConstantExpression(Number(n)), end)
  {
  }

  lemma ShownNumber(t: Platform, text: string, n: int, s: string, pos: nat)
    requires t.Sane() && Scannable(t, text) && t.tryParse(text) == Some(n)
    requires At(s, pos, text) && pos + |text| < |s| && !t.digit(s[pos + |text|])
    ensures HeadAt(t, s, pos) == Ok(ConstantExpression(Number(n)), pos + |text|)
  {
    AtChar(s, pos, text, 0);
    AtSlice(s, pos, text);
    var sign := if text[0] == '-' then 2 else 1;
    var front, rest := text[..sign], text[sign..];
    assert text == front + rest;
    AtConcat(s, pos, front, rest);
    SkipTo(t.digit, s, pos + sign, rest);
    HeadIsNumber(t, s, pos);
    NumberStep(t, s, pos, pos + sign - 1, pos + |text|, n);
  }

  lemma ShownText(t: Platform, text: string, s: string, pos: nat)
    requires t.Sane() && '"' !in text
    requires At(s, pos, "\"" + text + "\"")
    ensures HeadAt(t, s, pos) == Ok(ConstantExpression(Text(text)), pos + |text| + 2)
  {
    AtConcat(s, pos, "\"" + text, "\"");
    AtConcat(s, pos, "\"", text);
    AtChar(s, pos, "\"", 0);
    AtChar(s, pos + 1 + |text|, "\"", 0);
    HeadIsText(t, s, pos);
    forall i | 0 <= i < |text| ensures TEXT_CHARS(text[i]) {
      assert text[i] in text;
    }
    SkipTo(TEXT_CHARS, s, pos + 1, text);
    AtSlice(s, pos + 1, text);
  }

  /** Reading a layout arrives behind it with its meaning, ready to read the next member. */
  lemma {:induction false} Shown(t: Platform, c: Layout, s: string, pos: nat)
    requires t.Sane() && Readable(t, c)
    requires At(s, pos, Show(c)) && pos + |Show(c)| < |s| && EndsBefore(t, c, s[pos + |Show(c)|])
    ensures pos < |s| && CoreAt(t, s, pos) == ChainAt(t, s, pos + |Show(c)|, Denote(t, c))
    decreases c, 2
  {
    match c
    case DotLayout(_, _) => ShownDot(t, c, s, pos);
    case NumberLayout(text) => ShownNumber(t, text, t.tryParse(text).value, s, pos);
    case TextLayout(text) => ShownText(t, text, s, pos);
    case GroupLayout(lead, inner) => ShownGroup(t, lead, inner, s, pos);
    case ScopeLayout(m) =>
      FirstChar(t, c);
      AtChar(s, pos, Show(c), 0);
      HeadIsMember(t, s, pos);
      ShownMember(t, m, Scope, s, pos);
  }

  /** White space, commas, closing parentheses and dots end any layout. */
  lemma SeparatorEnds(t: Platform, c: Layout, next: char)
    requires t.Sane() && (t.white(next) || next == ',' || next == ')' || next == '.')
    ensures EndsBefore(t, c, next) && !t.InName(next) && next != '('
    ensures t.white(next) <==> next != '.' && next != ',' && next != ')'
  {
    assert Punctuation(',') && Punctuation(')') && Punctuation('.') && Punctuation('(') && Punctuation('_');
  }

  lemma DotParts(c: Layout, s: string, pos: nat)
    requires c.DotLayout? && At(s, pos, Show(c))
    ensures var dot := pos + |Show(c.target)|;
            && At(s, pos, Show(c.target)) && s[dot] == '.' && At(s, dot + 1, ShowMember(c.member))
            && dot + 1 + |ShowMember(c.member)| == pos + |Show(c)|
  {
    var dot := pos + |Show(c.target)|;
    AtConcat(s, pos, Show(c.target), "." + ShowMember(c.member));
    AtConcat(s, dot, ".", ShowMember(c.member));
    AtChar(s, dot, ".", 0);
  }

  lemma {:induction false} ShownDot(t: Platform, c: Layout, s: string, pos: nat)
    requires t.Sane() && Readable(t, c) && c.DotLayout?
    requires At(s, pos, Show(c)) && pos + |Show(c)| < |s| && EndsMember(t, c.member, s[pos + |Show(c)|])
    ensures pos < |s| && CoreAt(t, s, pos) == ChainAt(t, s, pos + |Show(c)|, Denote(t, c))
    decreases c, 1
  {
    var dot, e := ShownTarget(t, c, s, pos);
    ShownSuffix(t, c.member, e, s, pos, dot);
  }

  lemma {:induction false} ShownTarget(t: Platform, c: Layout, s: string, pos: nat) returns (dot: nat, e: Expression)
    requires t.Sane() && Readable(t, c) && c.DotLayout?
    requires At(s, pos, Show(c))
    ensures e == Denote(t, c.target) && dot + 1 + |ShowMember(c.member)| == pos + |Show(c)|
    ensures pos < |s| && dot < |s| && s[dot] == '.' && CoreAt(t, s, pos) == ChainAt(t, s, dot, e)
    ensures At(s, dot + 1, ShowMember(c.member))
    decreases c, 0
  {
    DotParts(c, s, pos);
    dot, e := pos + |Show(c.target)|, Denote(t, c.target);
    SeparatorEnds(t, c.target, '.');
    Shown(t, c.target, s, pos);
  }

  lemma {:induction false} ShownSuffix(t: Platform, m: Member, e: Expression, s: string, pos: nat, dot: nat)
    requires t.Sane() && ReadableMember(t, m)
    requires pos < |s| && dot < |s| && CoreAt(t, s, pos) == ChainAt(t, s, dot, e) && s[dot] == '.'
    requires At(s, dot + 1, ShowMember(m))
    requires m.Plain? ==> dot + 1 + |ShowMember(m)| < |s| && EndsMember(t, m, s[dot + 1 + |ShowMember(m)|])
    ensures CoreAt(t, s, pos) == ChainAt(t, s, dot + 1 + |ShowMember(m)|, DenoteMember(t, e, m))
    decreases m, 1
  {
    ShownMember(t, m, e, s, dot + 1);
    DotStep(t, s, pos, dot, e, DenoteMember(t, e, m), dot + 1 + |ShowMember(m)|);
  }

  /** A layout behind white space, in front of a character that does not continue it, is a whole expression. */
  lemma {:induction false} ShownSpaced(t: Platform, lead: string, c: Layout, s: string, pos: nat)
    requires t.Sane() && All(t.white, lead) && Readable(t, c)
    requires At(s, pos, lead) && At(s, pos + |lead|, Show(c))
    requires var end := pos + |lead| + |Show(c)|; end < |s| && EndsBefore(t, c, s[end]) && s[end] != '.'
    ensures var start := pos + |lead|;
            && Skip(t.white, s, pos) == start && s[start] != ')'
            && ExpressionAt(t, s, pos) == Ok(Denote(t, c), start + |Show(c)|)
    decreases c, 3
  {
    var start := pos + |lead|;
    FirstChar(t, c);
    AtChar(s, start, Show(c), 0);
    SkipOver(t.white, s, pos, lead);
    Shown(t, c, s, start);
    ExpressionIsCore(t, s, pos, start);
  }

  lemma GroupParts(lead: string, shown: string, s: string, pos: nat)
    requires At(s, pos, "(" + (lead + (shown + ")")))
    ensures var start := pos + 1 + |lead|; var close := start + |shown|;
            && close < |s| && s[pos] == '(' && At(s, pos + 1, lead) && At(s, start, shown) && s[close] == ')'
            && close + 1 == pos + |"(" + (lead + (shown + ")"))|
  {
    var start := pos + 1 + |lead|;
    AtConcat(s, pos, "(", lead + (shown + ")"));
    AtConcat(s, pos + 1, lead, shown + ")");
    AtConcat(s, start, shown, ")");
    AtChar(s, pos, "(", 0);
    AtChar(s, start + |shown|, ")", 0);
  }

  lemma {:induction false} ShownGroup(t: Platform, lead: string, inner: Layout, s: string, pos: nat)
    requires t.Sane() && All(t.white, lead) && Readable(t, inner)
    requires At(s, pos, Show(GroupLayout(lead, inner)))
    ensures HeadAt(t, s, pos) == Ok(Denote(t, inner), pos + |Show(GroupLayout(lead, inner))|)
    decreases inner, 4
  {
    var start := pos + 1 + |lead|;
    var close := start + |Show(inner)|;
    GroupParts(lead, Show(inner), s, pos);
    SeparatorEnds(t, inner, ')');
    ShownSpaced(t, lead, inner, s, pos + 1);
    SkipsWhite(t, s, pos + 1, []);
    GroupStep(t, s, pos, start, close, Denote(t, inner));
  }

  lemma {:induction false} ShownMember(t: Platform, m: Member, parent: Expression, s: string, pos: nat)
    requires t.Sane() && ReadableMember(t, m)
    requires At(s, pos, ShowMember(m))
    requires m.Plain? ==> pos + |ShowMember(m)| < |s| && EndsMember(t, m, s[pos + |ShowMember(m)|])
    ensures MemberAt(t, s, pos, parent) == Ok(DenoteMember(t, parent, m), pos + |ShowMember(m)|)
    decreases m, 0
  {
    if m.Plain? {
      SkipTo(NameChars(t), s, pos, m.name);
      AtSlice(s, pos, m.name);
      PropertyStep(t, s, pos, pos + |m.name|, parent);
    } else {
      ShownCall(t, m.name, m.args, parent, s, pos);
    }
  }

  lemma CallParts(name: string, args: Args, s: string, pos: nat)
    requires At(s, pos, ShowMember(Call(name, args)))
    ensures var open := pos + |name|; var close := open + 1 + |ShowArgs(args)|;
            && At(s, pos, name) && s[open] == '(' && At(s, open + 1, ShowArgs(args)) && close < |s| && s[close] == ')'
            && close + 1 == pos + |ShowMember(Call(name, args))| && s[pos..open] == name
  {
    var open := pos + |name|;
    var close := open + 1 + |ShowArgs(args)|;
    AtConcat(s, pos, name, "(" + (ShowArgs(args) + ")"));
    AtConcat(s, open, "(", ShowArgs(args) + ")");
    AtConcat(s, open + 1, ShowArgs(args), ")");
    AtChar(s, open, "(", 0);
    AtChar(s, close, ")", 0);
    AtSlice(s, pos, name);
  }

  lemma {:induction false} ShownCall(t: Platform, name: string, args: Args, parent: Expression, s: string, pos: nat)
    requires t.Sane() && IsName(t, name) && ReadableArgs(t, args)
    requires At(s, pos, ShowMember(Call(name, args)))
    ensures MemberAt(t, s, pos, parent) ==
            Ok(MethodExpression(parent, name, DenoteArgs(t, args)), pos + |ShowMember(Call(name, args))|)
    decreases args, 3
  {
    var open := pos + |name|;
    var close := open + 1 + |ShowArgs(args)|;
    CallParts(name, args, s, pos);
    assert Punctuation('(') && Punctuation(')');
    SkipTo(NameChars(t), s, pos, name);
    var p := Skip(t.white, s, open + 1);
    ShownArgList(t, args, s, open + 1, p);
    CallStep(t, s, pos, open, p, close, parent, DenoteArgs(t, args));
  }

  lemma {:induction false} ShownArgList(t: Platform, args: Args, s: string, pos: nat, p: nat)
    requires t.Sane() && ReadableArgs(t, args)
    requires At(s, pos, ShowArgs(args)) && pos + |ShowArgs(args)| < |s| && s[pos + |ShowArgs(args)|] == ')'
    requires p == Skip(t.white, s, pos)
    ensures p < |s|
    ensures if args.NoArgs? then p == pos + |ShowArgs(args)|
            else s[p] != ')' && ArgsAt(t, s, p, []) == Ok(DenoteArgs(t, args), pos + |ShowArgs(args)|)
    decreases args, 2
  {
    if args.NoArgs? {
      assert Punctuation(')');
      SkipTo(t.white, s, pos, args.blank);
    } else {
      ShownArgs(t, args, [], s, pos, pos + |ShowArgs(args)|);
      SkipsWhite(t, s, pos, []);
      assert [] + DenoteArgs(t, args) == DenoteArgs(t, args);
    }
  }

  /** Arguments are read up to the closing parenthesis. */
  lemma {:induction false} ShownArgs(t: Platform, args: Args, before: seq<Expression>, s: string, pos: nat, close: nat)
    requires t.Sane() && ReadableArgs(t, args) && !args.NoArgs?
    requires At(s, pos, ShowArgs(args)) && pos + |ShowArgs(args)| == close < |s| && s[close] == ')'
    ensures var p := Skip(t.white, s, pos); p < |s| && s[p] != ')'
    ensures ArgsAt(t, s, pos, before) == Ok(before + DenoteArgs(t, args), close)
    decreases args, 1
  {
    var arg, end, stop := ShownFirstArg(t, args, s, pos, close);
    if args.MoreArgs? {
      ShownArgs(t, args.rest, before + [arg], s, stop + 1, close);
      MoreStep(t, s, pos, before, arg, end, stop, DenoteArgs(t, args.rest), close);
    } else {
      ArgStep(t, s, pos, before, arg, end, stop);
    }
  }

  lemma MoreStep(t: Platform, s: string, pos: nat, before: seq<Expression>, arg: Expression, end: nat, stop: nat, rest: seq<Expression>, close: nat)
    requires pos <= |s| && ExpressionAt(t, s, pos) == Ok(arg, end)
    requires end <= |s| && Skip(t.white, s, end) == stop < |s| && s[stop] == ','
    requires ArgsAt(t, s, stop + 1, before + [arg]) == Ok(before + [arg] + rest, close)
    ensures ArgsAt(t, s, pos, before) == Ok(before + ([arg] + rest), close)
  {
    ArgStep(t, s, pos, before, arg, end, stop);
    Associates(before, [arg], rest);
  }

  /** The first argument is read up to its separator; the shown rest is behind that. */
  lemma {:induction false} ShownFirstArg(t: Platform, args: Args, s: string, pos: nat, close: nat)
    returns (arg: Expression, end: nat, stop: nat)
    requires t.Sane() && ReadableArgs(t, args) && !args.NoArgs?
    requires At(s, pos, ShowArgs(args)) && pos + |ShowArgs(args)| == close < |s| && s[close] == ')'
    ensures arg == Denote(t, args.arg)
    ensures end <= stop < |s| && ExpressionAt(t, s, pos) == Ok(arg, end) && Skip(t.white, s, end) == stop
    ensures var p := Skip(t.white, s, pos); p < |s| && s[p] != ')'
    ensures args.LastArg? ==> stop == close
    ensures args.MoreArgs? ==> s[stop] == ',' && At(s, stop + 1, ShowArgs(args.rest)) && stop + 1 + |ShowArgs(args.rest)| == close
    decreases args, 0
  {
    var start;
    arg := Denote(t, args.arg);
    start, end, stop := ArgsParts(t, args, s, pos, close);
    ShownArg(t, args.lead, args.arg, args.trail, s, pos, start, end, stop);
  }

  /** Where the parts of the shown arguments are. */
  lemma ArgsParts(t: Platform, args: Args, s: string, pos: nat, close: nat) returns (start: nat, end: nat, stop: nat)
    requires !args.NoArgs? && At(s, pos, ShowArgs(args)) && pos + |ShowArgs(args)| == close < |s|
    ensures start == pos + |args.lead| && end == start + |Show(args.arg)| && stop == end + |args.trail| <= close
    ensures At(s, pos, args.lead) && At(s, start, Show(args.arg)) && At(s, end, args.trail)
    ensures args.LastArg? ==> stop == close
    ensures args.MoreArgs? ==> s[stop] == ',' && At(s, stop + 1, ShowArgs(args.rest)) && stop + 1 + |ShowArgs(args.rest)| == close
  {
    start := pos + |args.lead|;
    end := start + |Show(args.arg)|;
    stop := end + |args.trail|;
    if args.LastArg? {
      AtConcat(s, pos, args.lead, Show(args.arg) + args.trail);
      AtConcat(s, start, Show(args.arg), args.trail);
    } else {
      var behind := "," + ShowArgs(args.rest);
      AtConcat(s, pos, args.lead, Show(args.arg) + (args.trail + behind));
      AtConcat(s, start, Show(args.arg), args.trail + behind);
      AtConcat(s, end, args.trail, behind);
      AtConcat(s, stop, ",", ShowArgs(args.rest));
      AtChar(s, stop, ",", 0);
    }
  }

  /** One argument with its white space, in front of a comma or a closing parenthesis. */
  lemma {:induction false} ShownArg(t: Platform, lead: string, arg: Layout, trail: string, s: string, pos: nat, start: nat, end: nat, stop: nat)
    requires t.Sane() && All(t.white, lead) && Readable(t, arg) && All(t.white, trail)
    requires start == pos + |lead| && end == start + |Show(arg)| && stop == end + |trail| < |s|
    requires At(s, pos, lead) && At(s, start, Show(arg)) && At(s, end, trail) && (s[stop] == ',' || s[stop] == ')')
    ensures start < |s| && Skip(t.white, s, pos) == start && s[start] != ')'
    ensures ExpressionAt(t, s, pos) == Ok(Denote(t, arg), end) && Skip(t.white, s, end) == stop
    decreases arg, 4
  {
    if trail != "" {
      AtChar(s, end, trail, 0);
    }
    SeparatorEnds(t, arg, s[end]);
    SeparatorEnds(t, arg, s[stop]);
    ShownSpaced(t, lead, arg, s, pos);
    SkipOver(t.white, s, end, trail);
  }
}
