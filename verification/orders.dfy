/** The order loop of `take_inp`: the player's line, split into tokens, is
    read as pairs `f<digit> <heading>` and each pair sets that fighter's
    desired heading. The first malformed pair ends the loop; the pairs
    before it stay applied. */
module Orders {
  import opened Seqs
  import opened Heading
  import opened Entities

  /** The exceptions the loop catches: an `IndexError` for a missing
      heading token or an id shorter than two characters, a `ValueError`
      for an id whose second character is not a digit or a heading that is
      not an integer. */
  datatype OrderError = MissingHeading | ShortId | BadId | BadHeading

  /** A parsed pair: the fighter's roster index and the ordered heading. */
  datatype Order = Order(fighter: int, heading: int)

  datatype PairResult = Good(order: Order) | Bad(error: OrderError)

  datatype Parsed = Parsed(orders: seq<Order>, error: Option<OrderError>)

  predicate IsDigit(c: char) {
    '0' <= c <= '9'
  }

  function DigitValue(c: char): nat
    requires IsDigit(c)
  {
    (c as int) - ('0' as int)
  }

  /** The body of a Python integer literal as `int()` accepts it: decimal
      digits, grouped by single underscores, starting and ending with a digit. */
  predicate IsDigitRun(s: string) {
    && |s| > 0 && IsDigit(s[0]) && IsDigit(s[|s| - 1])
    && DigitsAndUnderscores(s)
    && forall i :: 0 <= i < |s| - 1 ==> s[i] == '_' ==> IsDigit(s[i + 1])
  }

  predicate DigitsAndUnderscores(s: string) {
    forall i :: 0 <= i < |s| ==> IsDigit(s[i]) || s[i] == '_'
  }

  /** The value of a run of digits and underscores; underscores are skipped. */
  function RunValue(s: string): nat
    requires DigitsAndUnderscores(s)
  {
    if |s| == 0 then 0
    else if s[|s| - 1] == '_' then RunValue(s[..|s| - 1])
    else 10 * RunValue(s[..|s| - 1]) + DigitValue(s[|s| - 1])
  }

  /** `int(s)` for a token: an optional sign, then a digit run. */
  function ParseInt(s: string): Option<int> {
    if |s| > 0 && (s[0] == '+' || s[0] == '-') then
      if IsDigitRun(s[1..]) then
        var v: int := RunValue(s[1..]);
        Some(if s[0] == '-' then -v else v)
      else None
    else if IsDigitRun(s) then Some(RunValue(s))
    else None
  }

  /** Decimal text of a natural number. */
  function ShowNat(n: nat): (s: string)
    ensures |s| > 0
    ensures forall i :: 0 <= i < |s| ==> IsDigit(s[i])
  {
    var d := ['0' + ((n % 10) as char)];
    if n < 10 then d else ShowNat(n / 10) + d
  }

  function ShowInt(n: int): string {
    if n < 0 then "-" + ShowNat(-n) else ShowNat(n)
  }

  lemma {:induction false} RunValueOfShowNat(n: nat)
    ensures RunValue(ShowNat(n)) == n
    decreases n
  {
    var s := ShowNat(n);
    if n >= 10 {
      RunValueOfShowNat(n / 10);
      assert s[..|s| - 1] == ShowNat(n / 10);
    }
  }

  lemma ShowNatIsDigitRun(n: nat)
    ensures IsDigitRun(ShowNat(n))
  {
    var s := ShowNat(n);
    assert IsDigit(s[0]) && IsDigit(s[|s| - 1]);
  }

  /** Whatever integer heading the player types in plain decimal is read back
      as that integer. */
  lemma ParseIntOfShowInt(n: int)
    ensures ParseInt(ShowInt(n)) == Some(n)
  {
    var s := ShowInt(n);
    if n < 0 {
      assert s[0] == '-' && s[1..] == ShowNat(-n);
      ShowNatIsDigitRun(-n);
      RunValueOfShowNat(-n);
    } else {
      assert s == ShowNat(n) && IsDigit(s[0]);
      ShowNatIsDigitRun(n);
      RunValueOfShowNat(n);
    }
  }

  /** One pair of tokens, checked in the order Python evaluates it: the id's
      second character, then its digit, then the heading. Only that one
      character of the id is read. */
  function ParsePair(id: string, heading: string): PairResult {
    if |id| < 2 then Bad(ShortId)
    else if !IsDigit(id[1]) then Bad(BadId)
    else match ParseInt(heading)
      case None => Bad(BadHeading)
      case Some(h) => Good(Order(DigitValue(id[1]) - 1, h))
  }

  /** Only the id's second character is read: ids that agree there give
      the same result, whatever else they hold (`x1`, `f1` and `f10` all
      name fighter 0). */
  lemma ParsePairReadsOneChar(a: string, b: string, heading: string)
    requires |a| >= 2 && |b| >= 2 && a[1] == b[1]
    ensures ParsePair(a, heading) == ParsePair(b, heading)
  {
  }

  /** A pair whose id has a digit second and whose heading is a plain
      decimal integer is read back as the order it spells: fighter
      digit - 1 (so `f0` gives -1), that heading. */
  lemma ParsePairOfShowInt(id: string, n: int)
    requires |id| >= 2 && IsDigit(id[1])
    ensures ParsePair(id, ShowInt(n)) == Good(Order(DigitValue(id[1]) - 1, n))
  {
    ParseIntOfShowInt(n);
  }

  /** The pair starting at token i; a lone last token has no heading. */
  function PairAt(tokens: seq<string>, i: nat): PairResult
    requires i < |tokens|
  {
    if i + 1 >= |tokens| then Bad(MissingHeading) else ParsePair(tokens[i], tokens[i + 1])
  }

  /** The orders up to the first malformed pair, and that pair's error. */
  function ParseOrders(tokens: seq<string>): (r: Parsed)
    ensures 2 * |r.orders| <= |tokens|
    ensures forall k :: 0 <= k < |r.orders| ==> PairAt(tokens, 2 * k) == Good(r.orders[k])
    ensures r.error.None? <==> |tokens| == 2 * |r.orders|
    ensures r.error.Some? ==> PairAt(tokens, 2 * |r.orders|) == Bad(r.error.value)
    decreases |tokens|
  {
    if |tokens| == 0 then Parsed([], None)
    else match PairAt(tokens, 0)
      case Bad(e) => Parsed([], Some(e))
      case Good(o) =>
        var rest := ParseOrders(tokens[2..]);
        assert forall k :: 1 <= k <= |rest.orders| ==> PairAt(tokens, 2 * k) == PairAt(tokens[2..], 2 * (k - 1));
        Parsed([o] + rest.orders, rest.error)
  }

  /** A malformed pair stops the parse: whatever follows it is never read,
      and the pairs before it are kept. */
  lemma {:induction false} FirstBadPairStops(good: seq<string>, id: string, heading: string, rest: seq<string>)
    requires ParseOrders(good).error.None?
    requires ParsePair(id, heading).Bad?
    ensures ParseOrders(good + [id, heading] + rest)
            == Parsed(ParseOrders(good).orders, Some(ParsePair(id, heading).error))
    decreases |good|
  {
    var tokens := good + [id, heading] + rest;
    if |good| == 0 {
      assert tokens[0] == id && tokens[1] == heading;
    } else {
      assert good[0] == tokens[0] && good[1] == tokens[1];
      assert tokens[2..] == good[2..] + [id, heading] + rest;
      FirstBadPairStops(good[2..], id, heading, rest);
    }
  }

  /** A fighter's desired heading after a list of orders: the last order
      naming it wins; with none, it keeps `current`. */
  function FinalDesired(orders: seq<Order>, fighter: int, current: real): real {
    if |orders| == 0 then current
    else
      var o := Last(orders);
      if o.fighter == fighter then (o.heading % 360) as real
      else FinalDesired(orders[..|orders| - 1], fighter, current)
  }

  /** The fighter numbers of the orders that name no fighter on the roster. */
  function Unknown(orders: seq<Order>, fighterCount: nat): seq<int> {
    if |orders| == 0 then []
    else
      var o := Last(orders);
      Unknown(orders[..|orders| - 1], fighterCount)
        + (if 0 <= o.fighter < fighterCount then [] else [o.fighter])
  }

  lemma {:induction false} FinalDesiredOk(orders: seq<Order>, fighter: int, current: real)
    requires 0.0 <= current < 360.0 && Whole(current)
    ensures var d := FinalDesired(orders, fighter, current); 0.0 <= d < 360.0 && Whole(d)
    decreases |orders|
  {
    if |orders| > 0 {
      var o := Last(orders);
      if o.fighter == fighter {
        FloorOfWhole(o.heading % 360);
      } else {
        FinalDesiredOk(orders[..|orders| - 1], fighter, current);
      }
    }
  }

  /** One more order: it decides the desired heading of the fighter it
      names, and the others keep what the earlier orders gave them. */
  lemma FinalDesiredStep(orders: seq<Order>, k: nat, fighter: int, current: real)
    requires k < |orders|
    ensures FinalDesired(orders[..k + 1], fighter, current)
            == if orders[k].fighter == fighter then (orders[k].heading % 360) as real
               else FinalDesired(orders[..k], fighter, current)
  {
    assert orders[..k + 1][..k] == orders[..k];
  }

  /** One more order is reported exactly when it names no fighter on the
      roster. */
  lemma UnknownStep(orders: seq<Order>, k: nat, fighterCount: nat)
    requires k < |orders|
    ensures Unknown(orders[..k + 1], fighterCount)
            == Unknown(orders[..k], fighterCount)
               + (if 0 <= orders[k].fighter < fighterCount then [] else [orders[k].fighter])
  {
    assert orders[..k + 1][..k] == orders[..k];
  }

  /** The roster once one line of orders is applied: each fighter's
      desired heading is what the line's well-formed pairs leave it. */
  function Ordered(fighters: seq<Plane>, tokens: seq<string>): seq<Plane> {
    var orders := ParseOrders(tokens).orders;
    seq(|fighters|, j requires 0 <= j < |fighters| =>
      fighters[j].(desired := FinalDesired(orders, j, fighters[j].desired)))
  }

  /** The order loop. Pairs are applied in token order; a pair naming no
      fighter on the roster is reported and skipped; the first malformed
      pair ends the loop with the earlier orders applied. Only the desired
      headings change. */
  method ApplyOrders(fighters: seq<Plane>, tokens: seq<string>)
      returns (r: seq<Plane>, unknown: seq<int>, error: Option<OrderError>)
    ensures var p := ParseOrders(tokens);
            && error == p.error
            && |r| == |fighters|
            && (forall j :: 0 <= j < |r| ==>
                  r[j] == fighters[j].(desired := FinalDesired(p.orders, j, fighters[j].desired)))
            && unknown == Unknown(p.orders, |fighters|)
  {
    ghost var p := ParseOrders(tokens);
    r, unknown, error := fighters, [], None;
    var k := 0;
    while 2 * k < |tokens|
      invariant 2 * k <= |tokens| && k <= |p.orders|
      invariant |r| == |fighters|
      invariant forall j :: 0 <= j < |r| ==>
                  r[j] == fighters[j].(desired := FinalDesired(p.orders[..k], j, fighters[j].desired))
      invariant unknown == Unknown(p.orders[..k], |fighters|)
      decreases |tokens| - 2 * k
    {
      var pair := PairAt(tokens, 2 * k);
      if pair.Bad? {
        assert k == |p.orders|;
        assert p.orders[..k] == p.orders;
        error := Some(pair.error);
        return;
      }
      var o := pair.order;
      assert k < |p.orders| && p.orders[k] == o;
      forall j | 0 <= j < |r|
        ensures FinalDesired(p.orders[..k + 1], j, fighters[j].desired)
                == if o.fighter == j then (o.heading % 360) as real
                   else FinalDesired(p.orders[..k], j, fighters[j].desired)
      {
        FinalDesiredStep(p.orders, k, j, fighters[j].desired);
      }
      UnknownStep(p.orders, k, |fighters|);
      if 0 <= o.fighter < |r| {
        r := r[o.fighter := ChangeHeading(r[o.fighter], o.heading)];
      } else {
        unknown := unknown + [o.fighter];
      }
      k := k + 1;
    }
    assert k == |p.orders|;
    assert p.orders[..k] == p.orders;
  }

  /** Orders only ever store headings in [0, 360), so a well-formed roster
      stays well formed. */
  lemma OrdersKeepFightersOk(fighters: seq<Plane>, tokens: seq<string>)
    ensures AllFightersOk(fighters) ==> AllFightersOk(Ordered(fighters, tokens))
  {
    if AllFightersOk(fighters) {
      var r := Ordered(fighters, tokens);
      forall j | 0 <= j < |r|
        ensures FighterOk(r[j])
      {
        FinalDesiredOk(ParseOrders(tokens).orders, j, fighters[j].desired);
      }
    }
  }
}
