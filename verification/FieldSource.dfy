/**
  Two field sources that are connected by partial conversions: setting one sets
  the other, which sets the first in turn, until a value does not change.
 */
module FieldSources {
  import opened Wrappers

  /** The values of the two fields. */
  datatype Values<A, B> = Values(first: A, second: B)

  /** How the fields are connected; a conversion may fail, and a field may refuse to be set. */
  datatype Connection<!A(!new), !B(!new)> = Connection(convert12: A -> Option<B>, convert21: B -> Option<A>, readOnly1: bool, readOnly2: bool) {

    /** Converting forth, back and forth again yields what converting forth yields. */
    ghost predicate Settles() {
      forall a, b, a' :: convert12(a) == Some(b) && convert21(b) == Some(a') ==> convert12(a') == Some(b)
    }

    /** The fields agree: the second holds the converted first. */
    ghost predicate Agree(v: Values<A, B>) {
      convert12(v.first) == Some(v.second)
    }
  }

  /** The values after setting the first field to a different value and handling all changes. */
  function AfterSet1<A(==, !new), B(==, !new)>(c: Connection<A, B>, v: Values<A, B>, a: A): Values<A, B> {
    match c.convert12(a)
    case None => Values(a, v.second)
    case Some(b) =>
      if c.readOnly2 || b == v.second then Values(a, v.second)
      else if c.readOnly1 || c.convert21(b).None? then Values(a, b)
      else Values(c.convert21(b).value, b)
  }

  /** The values after setting the second field to a different value and handling all changes. */
  function AfterSet2<A(==, !new), B(==, !new)>(c: Connection<A, B>, v: Values<A, B>, b: B): Values<A, B> {
    match c.convert21(b)
    case None => Values(v.first, b)
    case Some(a) =>
      if c.readOnly1 || a == v.first then Values(v.first, b) else AfterSet1(c, Values(v.first, b), a)
  }

  /** Setting the first field to a value that converts leaves the second field with the conversion, and the fields agree. */
  lemma SetFirstSettles<A(!new), B(!new)>(c: Connection<A, B>, v: Values<A, B>, a: A)
    requires c.Settles() && !c.readOnly2 && c.convert12(a).Some?
    ensures AfterSet1(c, v, a).second == c.convert12(a).value
    ensures c.Agree(AfterSet1(c, v, a))
  {
    var b := c.convert12(a).value;
    if c.convert21(b).Some? {
      assert c.convert12(c.convert21(b).value) == Some(b);
    }
  }

  /**
    Setting the second field to a value that converts back and forth leaves the
    fields in agreement exactly if the first field changes or the value survives
    the conversions.
   */
  lemma SetSecondSettles<A(!new), B(!new)>(c: Connection<A, B>, v: Values<A, B>, b: B)
    requires c.Settles() && !c.readOnly1 && !c.readOnly2
    requires c.convert21(b).Some? && c.convert12(c.convert21(b).value).Some?
    ensures var a := c.convert21(b).value;
            c.Agree(AfterSet2(c, v, b)) <==> a != v.first || c.convert12(a) == Some(b)
  {
    var a := c.convert21(b).value;
    if a != v.first {
      SetFirstSettles(c, Values(v.first, b), a);
    }
  }

  // ---------- The cascade step by step ----------

  /** Whose change has been announced and not been handled yet. */
  datatype Pending = First | Second | Nothing

  datatype Cascade<A, B> = Cascade(values: Values<A, B>, pending: Pending)

  /** Handling one announcement: convert the new value, set the other field, announce it if it changed. */
  function Handled<A(==, !new), B(==, !new)>(c: Connection<A, B>, s: Cascade<A, B>): Cascade<A, B> {
    match s.pending
    case Nothing => s
    case First =>
      var b := c.convert12(s.values.first);
      if b.None? || c.readOnly2 || b.value == s.values.second then s.(pending := Nothing)
      else Cascade(s.values.(second := b.value), Second)
    case Second =>
      var a := c.convert21(s.values.second);
      if a.None? || c.readOnly1 || a.value == s.values.first then s.(pending := Nothing)
      else Cascade(s.values.(first := a.value), First)
  }

  function HandledTimes<A(==, !new), B(==, !new)>(c: Connection<A, B>, s: Cascade<A, B>, n: nat): Cascade<A, B>
    decreases n
  {
    if n == 0 then s else HandledTimes(c, Handled(c, s), n - 1)
  }

  /** Every change is handled after at most n announcements. */
  predicate EndsWithin<A(==, !new), B(==, !new)>(c: Connection<A, B>, s: Cascade<A, B>, n: nat) {
    HandledTimes(c, s, n).pending == Nothing
  }

  /** A cascade that ends, ends with the same values whatever the limit. */
  lemma {:induction false} LimitDoesNotMatter<A(!new), B(!new)>(c: Connection<A, B>, s: Cascade<A, B>, n: nat, more: nat)
    requires EndsWithin(c, s, n) && n <= more
    ensures HandledTimes(c, s, more) == HandledTimes(c, s, n)
    decreases more
  {
    if more > 0 {
      if n == 0 {
        LimitDoesNotMatter(c, s, 0, more - 1);
      } else {
        LimitDoesNotMatter(c, Handled(c, s), n - 1, more - 1);
      }
    }
  }

  lemma FourTimes<A(!new), B(!new)>(c: Connection<A, B>, s: Cascade<A, B>)
    ensures HandledTimes(c, s, 4) == Handled(c, Handled(c, Handled(c, Handled(c, s))))
  {
    var once := Handled(c, s);
    var twice := Handled(c, once);
    assert HandledTimes(c, twice, 2) == HandledTimes(c, Handled(c, twice), 1) == Handled(c, Handled(c, twice));
    assert HandledTimes(c, s, 4) == HandledTimes(c, once, 3) == HandledTimes(c, twice, 2);
  }

  /** When the conversions settle, every cascade is over after four announcements, with the values stated above. */
  lemma CascadeEnds<A(!new), B(!new)>(c: Connection<A, B>, v: Values<A, B>, a: A, b: B)
    requires c.Settles()
    ensures HandledTimes(c, Cascade(v.(first := a), First), 4) == Cascade(AfterSet1(c, v, a), Nothing)
    ensures HandledTimes(c, Cascade(v.(second := b), Second), 4) == Cascade(AfterSet2(c, v, b), Nothing)
  {
    FourTimes(c, Cascade(v.(first := a), First));
    FourTimes(c, Cascade(v.(second := b), Second));
  }

  /** After so many announcements all is over, with the conversion in the second field and both in agreement. */
  ghost predicate SettledAfter<A(!new), B(!new)>(c: Connection<A, B>, v: Values<A, B>, a: A, n: nat) {
    var s := HandledTimes(c, Cascade(v.(first := a), First), n);
    s.pending == Nothing && c.Agree(s.values) && c.convert12(a) == Some(s.values.second)
  }

  /** Setting the first field to a convertible value ends, after however many announcements, like that. */
  ghost predicate SettlesFrom<A(!new), B(!new)>(c: Connection<A, B>, v: Values<A, B>, a: A) {
    c.convert12(a).Some? ==> exists n: nat :: SettledAfter(c, v, a, n)
  }

  /** Two writable fields settle, from whatever they hold and whatever the first is set to, exactly if the conversions do; then four announcements are enough. */
  lemma FieldsSettleExactly<A(!new), B(!new)>(c: Connection<A, B>, b0: B, b1: B)
    requires !c.readOnly1 && !c.readOnly2 && b0 != b1
    ensures c.Settles() <==> forall v, a :: SettlesFrom(c, v, a)
  {
    if c.Settles() {
      forall v, a ensures SettlesFrom(c, v, a) {
        CascadeEnds(c, v, a, v.second);
        if c.convert12(a).Some? {
          SetFirstSettles(c, v, a);
          assert SettledAfter(c, v, a, 4);
        }
      }
    }
    if forall v, a :: SettlesFrom(c, v, a) {
      forall a, b, a' | c.convert12(a) == Some(b) && c.convert21(b) == Some(a') ensures c.convert12(a') == Some(b) {
        var v := Values(a, if b == b0 then b1 else b0);
        assert SettlesFrom(c, v, a) && SettlesFrom(c, Values(a, b), a');
        UnsettledDisagrees(c, v, a, b, a');
      }
    }
  }

  lemma AfterTwo<A(!new), B(!new)>(c: Connection<A, B>, s: Cascade<A, B>, n: nat)
    requires s.pending != Nothing && Handled(c, s).pending != Nothing && EndsWithin(c, s, n)
    ensures n >= 2 && HandledTimes(c, s, n) == HandledTimes(c, Handled(c, Handled(c, s)), n - 2)
  {
    assert n > 0 && HandledTimes(c, s, n) == HandledTimes(c, Handled(c, s), n - 1);
  }

  /** Where converting forth, back and forth yields something else, the fields do not settle. */
  lemma UnsettledDisagrees<A(!new), B(!new)>(c: Connection<A, B>, v: Values<A, B>, a: A, b: B, a': A)
    requires !c.readOnly1 && !c.readOnly2 && v.second != b
    requires c.convert12(a) == Some(b) && c.convert21(b) == Some(a')
    requires SettlesFrom(c, v, a) && SettlesFrom(c, Values(a, b), a')
    ensures c.convert12(a') == Some(b)
  {
    var s, t := Cascade(v.(first := a), First), Cascade(Values(a', b), First);
    var n: nat :| SettledAfter(c, v, a, n);
    if a' != a {
      assert Handled(c, s) == Cascade(Values(a, b), Second) && Handled(c, Handled(c, s)) == t;
      AfterTwo(c, s, n);
      if c.convert12(a').None? {
        assert Handled(c, t) == t.(pending := Nothing);
        LimitDoesNotMatter(c, t, 1, if n < 3 then 1 else n - 2);
      } else {
        var m: nat :| SettledAfter(c, Values(a, b), a', m);
        LimitDoesNotMatter(c, t, m, m + n);
        LimitDoesNotMatter(c, t, n - 2, m + n);
      }
    }
  }

  /** Conversions that do not settle may never end: each field follows the other with one more. */
  lemma {:induction false} CascadeNeverEnds(s: Cascade<int, int>, n: nat)
    requires (s.pending == First && s.values.first > s.values.second) || (s.pending == Second && s.values.second > s.values.first)
    ensures !EndsWithin(Connection(Successor, Successor, false, false), s, n)
    decreases n
  {
    if n > 0 {
      CascadeNeverEnds(Handled(Connection(Successor, Successor, false, false), s), n - 1);
    }
  }

  function Successor(x: int): Option<int> {
    Some(x + 1)
  }

  // ---------- The fields ----------

  class ConnectedFields<A(==, !new), B(==, !new)> {
    var value1: A
    var value2: B
    const connection: Connection<A, B>

    function Both(): Values<A, B>
      reads this
    {
      Values(value1, value2)
    }

    /** Stores both fields; connecting them is a separate step. */
    constructor (value1: A, value2: B, connection: Connection<A, B>)
      ensures this.value1 == value1 && this.value2 == value2 && this.connection == connection
    {
      this.value1, this.value2, this.connection := value1, value2, connection;
    }

    /**
      The change of the first field is announced; the second one follows if the value
      converts.  n bounds how many announcements there are, as they need not end.
     */
    method FirstChanged(ghost n: nat)
      requires EndsWithin(connection, Cascade(Both(), First), n)
      modifies this
      ensures Both() == HandledTimes(connection, Cascade(old(Both()), First), n).values
      decreases n, 0
    {
      var converted := connection.convert12(value1);
      LimitDoesNotMatter(connection, Cascade(Both(), Nothing), 0, n - 1);
      if converted.Some? && !connection.readOnly2 {
        var _ := Set2(converted.value, n - 1);
      }
    }

    method SecondChanged(ghost n: nat)
      requires EndsWithin(connection, Cascade(Both(), Second), n)
      modifies this
      ensures Both() == HandledTimes(connection, Cascade(old(Both()), Second), n).values
      decreases n, 0
    {
      var converted := connection.convert21(value2);
      LimitDoesNotMatter(connection, Cascade(Both(), Nothing), 0, n - 1);
      if converted.Some? && !connection.readOnly1 {
        var _ := Set1(converted.value, n - 1);
      }
    }

    /** Sets the first field and announces the change if there is one; refused if the field is read-only. */
    method Set1(a: A, ghost n: nat) returns (ok: bool)
      requires connection.readOnly1 || a == value1 || EndsWithin(connection, Cascade(Both().(first := a), First), n)
      modifies this
      ensures ok <==> !connection.readOnly1
      ensures Both() == if !ok || a == old(value1) then old(Both())
                        else HandledTimes(connection, Cascade(old(Both()).(first := a), First), n).values
      decreases n, 1
    {
      if connection.readOnly1 {
        return false;
      }
      if value1 == a {
        return true;
      }
      value1 := a;
      FirstChanged(n);
      return true;
    }

    method Set2(b: B, ghost n: nat) returns (ok: bool)
      requires connection.readOnly2 || b == value2 || EndsWithin(connection, Cascade(Both().(second := b), Second), n)
      modifies this
      ensures ok <==> !connection.readOnly2
      ensures Both() == if !ok || b == old(value2) then old(Both())
                        else HandledTimes(connection, Cascade(old(Both()).(second := b), Second), n).values
      decreases n, 1
    {
      if connection.readOnly2 {
        return false;
      }
      if value2 == b {
        return true;
      }
      value2 := b;
      SecondChanged(n);
      return true;
    }

    /** Connecting applies the first field to the second. */
    method Connect(ghost n: nat)
      requires EndsWithin(connection, Cascade(Both(), First), n)
      modifies this
      ensures Both() == HandledTimes(connection, Cascade(old(Both()), First), n).values
      ensures connection.Settles() ==> Both() == AfterSet1(connection, old(Both()), old(value1))
      ensures connection.Settles() && !connection.readOnly2 && connection.convert12(old(value1)).Some? ==> connection.Agree(Both())
    {
      ghost var v := Both();
      FirstChanged(n);
      if connection.Settles() {
        CascadeEnds(connection, v, v.first, v.second);
        LimitDoesNotMatter(connection, Cascade(v, First), n, if n < 4 then 4 else n);
        LimitDoesNotMatter(connection, Cascade(v, First), 4, if n < 4 then 4 else n);
        if !connection.readOnly2 && connection.convert12(v.first).Some? {
          SetFirstSettles(connection, v, v.first);
        }
      }
    }
  }
}
