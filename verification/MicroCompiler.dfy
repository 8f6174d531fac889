/**
  The expression parser.  The functions below say what each parse routine
  returns; the methods advance a position through the text, in loops, and are
  proved to return exactly that.
 */
module MicroCompiler {
  import opened Wrappers

  // ---------- Characters ----------

  /**
    What the platform decides: the classification of characters, and which texts
    its conversion to a 32-bit integer accepts.
   */
  datatype Platform = Platform(letter: char -> bool, digit: char -> bool, white: char -> bool, tryParse: string -> Option<int>) {

    predicate InName(c: char) {
      letter(c) || digit(c) || c == '_'
    }

    predicate StartsName(c: char) {
      letter(c) || c == '_'
    }

    /** What every classification agrees on: the classes do not overlap and leave punctuation out. */
    ghost predicate Sane() {
      && (forall c :: '0' <= c <= '9' ==> digit(c))
      && (forall c :: digit(c) ==> !letter(c) && !white(c))
      && (forall c :: letter(c) ==> !white(c))
      && (forall c :: Punctuation(c) ==> !letter(c) && !digit(c) && !white(c))
    }
  }

  predicate Punctuation(c: char) {
    c == '_' || c == '"' || c == '-' || c == '(' || c == ')' || c == '.' || c == ','
  }

  // ---------- Expressions ----------

  datatype Constant = Text(text: string) | Number(number: int)

  /** Scope stands for the expression that the caller passes as the scope of names. */
  datatype Expression =
    | Scope
    | ConstantExpression(constant: Constant)
    | PropertyExpression(parent: Expression, name: string)
    | MethodExpression(parent: Expression, name: string, args: seq<Expression>)

  datatype Error = SyntaxError(position: nat) | IndexOutOfRange

  datatype Parsed<+T> = Ok(value: T, position: nat) | Fail(error: Error)

  // ---------- What the routines return ----------

  /** The first position from pos on whose character is not skipped, or the end of the text. */
  function Skip(skipped: char -> bool, s: string, pos: nat): (p: nat)
    requires pos <= |s|
    ensures pos <= p <= |s|
    decreases |s| - pos
  {
    if pos < |s| && skipped(s[pos]) then Skip(skipped, s, pos + 1) else pos
  }

  function NameChars(t: Platform): char -> bool {
    c => t.InName(c)
  }

  const TEXT_CHARS: char -> bool := c => c != '"'

  /** The position skips a minus sign and, unseen, the character after it. */
  function NumberAt(t: Platform, s: string, pos: nat): (r: Parsed<Expression>)
    requires pos <= |s|
    ensures r.Fail? && r.error.SyntaxError? ==> pos <= r.error.position < |s|
    ensures r.Ok? ==> pos < r.position < |s|
  {
    var first := if pos < |s| && s[pos] == '-' then pos + 1 else pos;
    if first >= |s| then Fail(IndexOutOfRange)
    else
      var end := Skip(t.digit, s, first + 1);
      if end >= |s| then Fail(IndexOutOfRange)
      else match t.tryParse(s[pos..end])
        case None => Fail(SyntaxError(end))
        case Some(n) => Ok(ConstantExpression(Number(n)), end)
  }

  function TextAt(s: string, pos: nat): (r: Parsed<Expression>)
    requires pos <= |s|
    ensures r.Fail? && r.error.SyntaxError? ==> pos <= r.error.position < |s|
    ensures r.Ok? ==> pos < r.position <= |s|
  {
    if pos >= |s| then Fail(IndexOutOfRange)
    else if s[pos] != '"' then Fail(SyntaxError(pos))
    else
      var end := Skip(TEXT_CHARS, s, pos + 1);
      if end >= |s| then Fail(IndexOutOfRange) else Ok(ConstantExpression(Text(s[pos + 1..end])), end + 1)
  }

  function MemberAt(t: Platform, s: string, pos: nat, parent: Expression): (r: Parsed<Expression>)
    requires pos <= |s|
    ensures r.Fail? && r.error.SyntaxError? ==> pos <= r.error.position < |s|
    ensures r.Ok? ==> pos <= r.position <= |s| && (pos < |s| && t.InName(s[pos]) ==> pos < r.position)
    decreases |s| - pos, 1
  {
    var end := Skip(NameChars(t), s, pos);
    if end >= |s| then Fail(IndexOutOfRange)
    else if s[end] != '(' then Ok(PropertyExpression(parent, s[pos..end]), end)
    else
      var p := Skip(t.white, s, end + 1);
      if p >= |s| then Fail(IndexOutOfRange)
      else if s[p] == ')' then Ok(MethodExpression(parent, s[pos..end], []), p + 1)
      else match ArgsAt(t, s, p, [])
        case Fail(e) => Fail(e)
        case Ok(args, q) => if s[q] != ')' then Fail(SyntaxError(q)) else Ok(MethodExpression(parent, s[pos..end], args), q + 1)
  }

  /** The arguments up to the first character that is not a comma; those read before come first. */
  function ArgsAt(t: Platform, s: string, pos: nat, before: seq<Expression>): (r: Parsed<seq<Expression>>)
    requires pos <= |s|
    ensures r.Fail? && r.error.SyntaxError? ==> pos <= r.error.position < |s|
    ensures r.Ok? ==> pos < r.position < |s|
    decreases |s| - pos, 4
  {
    match ExpressionAt(t, s, pos)
    case Fail(e) => Fail(e)
    case Ok(arg, p) =>
      var q := Skip(t.white, s, p);
      if q >= |s| then Fail(IndexOutOfRange)
      else if s[q] != ',' then Ok(before + [arg], q)
      else ArgsAt(t, s, q + 1, before + [arg])
  }

  /** The part of an expression in front of the first dot. */
  function HeadAt(t: Platform, s: string, pos: nat): (r: Parsed<Expression>)
    requires pos < |s|
    ensures r.Fail? && r.error.SyntaxError? ==> pos <= r.error.position < |s|
    ensures r.Ok? ==> pos < r.position <= |s|
    decreases |s| - pos, 2
  {
    if t.StartsName(s[pos]) then MemberAt(t, s, pos, Scope)
    else if s[pos] == '"' then TextAt(s, pos)
    else if t.digit(s[pos]) || s[pos] == '-' then NumberAt(t, s, pos)
    else if s[pos] == '(' then
      var inner := Skip(t.white, s, pos + 1);
      match ExpressionAt(t, s, inner)
      case Fail(e) => Fail(e)
      case Ok(e, p) => if s[p] != ')' then Fail(SyntaxError(p)) else Ok(e, p + 1)
    else Fail(SyntaxError(pos))
  }

  /** The members that follow, each after a dot. */
  function ChainAt(t: Platform, s: string, pos: nat, e: Expression): (r: Parsed<Expression>)
    requires pos <= |s|
    ensures r.Fail? && r.error.SyntaxError? ==> pos <= r.error.position < |s|
    ensures r.Ok? ==> pos <= r.position < |s| && s[r.position] != '.'
    decreases |s| - pos, 2
  {
    if pos >= |s| then Fail(IndexOutOfRange)
    else if s[pos] != '.' then Ok(e, pos)
    else match MemberAt(t, s, pos + 1, e)
      case Fail(error) => Fail(error)
      case Ok(member, p) => ChainAt(t, s, p, member)
  }

  /** A successful parse advances the position, and stops in front of a character that it has seen. */
  function ExpressionAt(t: Platform, s: string, pos: nat): (r: Parsed<Expression>)
    requires pos <= |s|
    ensures r.Fail? && r.error.SyntaxError? ==> pos <= r.error.position < |s|
    ensures r.Ok? ==> pos < r.position < |s|
    decreases |s| - pos, 3
  {
    var p := Skip(t.white, s, pos);
    if p >= |s| then Fail(IndexOutOfRange)
    else match HeadAt(t, s, p)
      case Fail(e) => Fail(e)
      case Ok(head, q) => ChainAt(t, s, q, head)
  }

  // ---------- The routines ----------

  method ConsumeWhitespace(t: Platform, s: string, pos: nat) returns (position: nat)
    requires pos <= |s|
    ensures position == Skip(t.white, s, pos)
  {
    position := pos;
    while position < |s| && t.white(s[position])
      invariant pos <= position <= |s|
      invariant Skip(t.white, s, position) == Skip(t.white, s, pos)
    {
      position := position + 1;
    }
  }

  method ParseNumber(t: Platform, s: string, pos: nat) returns (result: Parsed<Expression>)
    requires pos <= |s|
    ensures result == NumberAt(t, s, pos)
  {
    if pos >= |s| {
      return Fail(IndexOutOfRange);
    }
    var position := if s[pos] == '-' then pos + 2 else pos + 1;
    ghost var first := position;
    while position < |s| && t.digit(s[position])
      invariant first <= position
      invariant first <= |s| ==> position <= |s| && Skip(t.digit, s, position) == Skip(t.digit, s, first)
    {
      position := position + 1;
    }
    if position >= |s| {
      return Fail(IndexOutOfRange);
    }
    var number := t.tryParse(s[pos..position]);
    if number.None? {
      return Fail(SyntaxError(position));
    }
    return Ok(ConstantExpression(Number(number.value)), position);
  }

  method ParseString(s: string, pos: nat) returns (result: Parsed<Expression>)
    requires pos <= |s|
    ensures result == TextAt(s, pos)
  {
    if pos >= |s| {
      return Fail(IndexOutOfRange);
    }
    if s[pos] != '"' {
      return Fail(SyntaxError(pos));
    }
    var position := pos + 1;
    while position < |s| && s[position] != '"'
      invariant pos + 1 <= position <= |s|
      invariant Skip(TEXT_CHARS, s, position) == Skip(TEXT_CHARS, s, pos + 1)
    {
      position := position + 1;
    }
    if position >= |s| {
      return Fail(IndexOutOfRange);
    }
    return Ok(ConstantExpression(Text(s[pos + 1..position])), position + 1);
  }

  method ParseMember(t: Platform, s: string, pos: nat, parent: Expression) returns (result: Parsed<Expression>)
    requires pos <= |s|
    ensures result == MemberAt(t, s, pos, parent)
    decreases |s| - pos, 1
  {
    var position := pos;
    while position < |s| && t.InName(s[position])
      invariant pos <= position <= |s|
      invariant Skip(NameChars(t), s, position) == Skip(NameChars(t), s, pos)
    {
      position := position + 1;
    }
    if position >= |s| {
      return Fail(IndexOutOfRange);
    }
    var member := s[pos..position];
    if s[position] != '(' {
      return Ok(PropertyExpression(parent, member), position);
    }
    position := ConsumeWhitespace(t, s, position + 1);
    if position >= |s| {
      return Fail(IndexOutOfRange);
    }
    var args: seq<Expression> := [];
    if s[position] != ')' {
      var list := ParseArguments(t, s, position);
      if list.Fail? {
        return Fail(list.error);
      }
      args, position := list.value, list.position;
    }
    if s[position] != ')' {
      return Fail(SyntaxError(position));
    }
    return Ok(MethodExpression(parent, member, args), position + 1);
  }

  /** The loop of ParseMember that fills the argument list. */
  method ParseArguments(t: Platform, s: string, pos: nat) returns (result: Parsed<seq<Expression>>)
    requires pos <= |s|
    ensures result == ArgsAt(t, s, pos, [])
    decreases |s| - pos, 4
  {
    var position, args: seq<Expression> := pos, [];
    while true
      invariant pos <= position <= |s|
      invariant ArgsAt(t, s, position, args) == ArgsAt(t, s, pos, [])
      decreases |s| - position
    {
      var arg := ParseExpression(t, s, position);
      if arg.Fail? {
        return Fail(arg.error);
      }
      args := args + [arg.value];
      position := ConsumeWhitespace(t, s, arg.position);
      if position >= |s| {
        return Fail(IndexOutOfRange);
      }
      if s[position] != ',' {
        return Ok(args, position);
      }
      position := position + 1;
    }
  }

  /** The branches of ParseExpression that handle the part in front of the first dot. */
  method ParseHead(t: Platform, s: string, pos: nat) returns (result: Parsed<Expression>)
    requires pos < |s|
    ensures result == HeadAt(t, s, pos)
    decreases |s| - pos, 2
  {
    if t.StartsName(s[pos]) {
      result := ParseMember(t, s, pos, Scope);
    } else if s[pos] == '"' {
      result := ParseString(s, pos);
    } else if t.digit(s[pos]) || s[pos] == '-' {
      result := ParseNumber(t, s, pos);
    } else if s[pos] == '(' {
      var inner := ConsumeWhitespace(t, s, pos + 1);
      result := ParseExpression(t, s, inner);
      if result.Ok? {
        result := if s[result.position] != ')' then Fail(SyntaxError(result.position)) else Ok(result.value, result.position + 1);
      }
    } else {
      result := Fail(SyntaxError(pos));
    }
  }

  method ParseExpression(t: Platform, s: string, pos: nat) returns (result: Parsed<Expression>)
    requires pos <= |s|
    ensures result == ExpressionAt(t, s, pos)
    decreases |s| - pos, 3
  {
    var position := ConsumeWhitespace(t, s, pos);
    if position >= |s| {
      return Fail(IndexOutOfRange);
    }
    result := ParseHead(t, s, position);
    if result.Fail? {
      return;
    }
    var e := result.value;
    position := result.position;
    while position < |s| && s[position] == '.'
      invariant pos < position <= |s|
      invariant ChainAt(t, s, position, e) == ChainAt(t, s, result.position, result.value)
      decreases |s| - position
    {
      var member := ParseMember(t, s, position + 1, e);
      if member.Fail? {
        return member;
      }
      e, position := member.value, member.position;
    }
    return if position >= |s| then Fail(IndexOutOfRange) else Ok(e, position);
  }
}
