/** The query-parameter normalisation of `GET /data`: which sort order
    and which limit the datastore query is given. */
module DataQuery {
  import opened Wrappers
  import opened Numerals

  datatype Direction = Asc | Desc

  /** The ordering and the optional limit handed to the datastore query. */
  datatype Plan = Plan(order: Direction, limit: Option<int>)

  /** A query parameter is truthy when it is present and not empty. */
  predicate Truthy(p: Option<string>) {
    p.Some? && p.value != ""
  }

  /** The order is ascending only for the exact text `asc`; a limit is
      applied only when the parameter is truthy and `parseInt` yields a
      number, and then it is that number. */
  function DataPlan(order: Option<string>, limit: Option<string>): (p: Plan)
    ensures p.order == Asc <==> order == Some("asc")
    ensures p.limit.Some? <==> Truthy(limit) && ParseInt(limit.value).Some?
    ensures p.limit.Some? ==> p.limit == ParseInt(limit.value)
  {
    var direction := if order == Some("asc") then Asc else Desc;
    if limit.Some? && limit.value != "" then
      match ParseInt(limit.value)
      case Some(n) => Plan(direction, Some(n))
      case None => Plan(direction, None)
    else Plan(direction, None)
  }

  /** A decimal limit, possibly padded with white space in front and
      followed by text that is not a digit, limits the query to that
      number. */
  lemma DecimalLimitApplied(order: Option<string>, pad: string, n: nat, rest: string)
    requires forall i :: 0 <= i < |pad| ==> IsJsWhitespace(pad[i])
    requires rest == [] || !IsDecimalDigit(rest[0])
    requires n == 0 && rest != [] ==> rest[0] != 'x' && rest[0] != 'X'
    ensures DataPlan(order, Some(pad + (Decimal(n) + rest))).limit == Some(n)
  {
    var u := Decimal(n) + rest;
    ParseIntSkipsWhitespace(pad, u);
    ParseIntDecimal(n, rest);
    assert pad + u != "" by {
      assert |pad + u| >= |u| >= 1;
    }
  }

  /** A limit that does not start with a number leaves the query
      unlimited. */
  lemma NonNumericLimitIgnored(order: Option<string>, limit: string)
    requires limit != [] && !IsJsWhitespace(limit[0]) && limit[0] != '-' && limit[0] != '+'
    requires !IsDecimalDigit(limit[0])
    ensures DataPlan(order, Some(limit)).limit == None
  {
  }

  /** `parseInt` reads a `0x` prefix as hexadecimal, so `limit=0x10`
      limits the query to sixteen documents. */
  lemma HexLimitIsHexadecimal(order: Option<string>)
    ensures DataPlan(order, Some("0x10")).limit == Some(16)
  {
    var u := "0x10";
    assert !IsJsWhitespace(u[0]);
    assert TrimStart(u) == u;
    assert u[2..] == "10";
    assert DigitRun("10", 16) == "10" by {
      assert "10"[1..] == "0";
      assert "0"[1..] == [];
      assert DigitRun("0", 16) == "0";
    }
    assert ValueOf("10", 16) == 16 by {
      assert "10"[..1] == "1";
      assert "1"[..0] == [];
    }
    assert ParseMagnitude(u) == Some(16);
    assert ParseSigned(u) == Some(16);
  }
}
