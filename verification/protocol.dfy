/** Properties of call sequences on the builder: single execution, the
    pre-execution guard, the implicit 200 OK check and how an explicit
    check switches it off, what the status-failure message lets a reader
    recover, and worked examples. */
module Protocol {
  import opened Lang
  import opened Joins
  import opened InternalRequests

  /** `execute` is single-shot: whatever the first delegate did (returned
      or threw), a second call fails with "already executed" and leaves the
      state as it was. */
  lemma ExecuteIsSingleShot<V>(b: Builder<V>, first: Delegate<V>, second: Delegate<V>)
    ensures Execute(b, first).state.Executed()
    ensures var s := Execute(b, first).state;
      Execute(s, second) == Step(s, Threw(AlreadyExecuted))
  {
  }

  /** The request handed to the back end is the configuration at the
      moment of `execute`: a chain of setters on a new builder reaches the
      back end of the chosen strategy exactly, and the response the back
      end leaves is the one the builder keeps. */
  lemma ConfigurationReachesDelegate<V>(
    strategy: Strategy, path: string, newMethod: string, selector: string,
    contentType: string, key: string, value: V, delegate: Delegate<V>)
    ensures
      var b0 := New<V>(strategy, path);
      var b1 := WithRequestMethod(b0, NonNull(newMethod)).state;
      var b2 := WithSelectors(b1, NonNull([NonNull(selector)]));
      var b3 := WithContentType(b2, NonNull(contentType));
      var b4 := WithParameter(b3, NonNull(key), NonNull(value)).state;
      var e := Execute(b4, delegate).state.exchange.value;
      && e.request.path == path
      && e.request.requestMethod == ToUpperAscii(newMethod)
      && e.request.selectorString == NonNull(selector)
      && e.request.contentType == NonNull(contentType)
      && e.request.parameters == map[NonNull(key) := NonNull(value)]
      && e.request.extension.Null?
      && e.response == delegate(strategy, e.request).response
  {
    var b0 := New<V>(strategy, path);
    var b1 := WithRequestMethod(b0, NonNull(newMethod)).state;
    assert b1.config.requestMethod == ToUpperAscii(newMethod);
    assert b1.config.path == path && b1.config.parameters == map[] && !b1.Executed();
    var b2 := WithSelectors(b1, NonNull([NonNull(selector)]));
    assert b2.config.selectorString == NonNull(selector) by {
      assert RenderSelectors([NonNull(selector)]) == [selector];
      JoinSingle(".", selector);
    }
    var b3 := WithContentType(b2, NonNull(contentType));
    var b4 := WithParameter(b3, NonNull(key), NonNull(value)).state;
    assert b4.config.parameters == map[NonNull(key) := NonNull(value)];
    assert b4.config == b1.config.(selectorString := NonNull(selector), contentType := NonNull(contentType),
      parameters := b4.config.parameters);
    assert !b4.Executed() && b4.strategy == strategy;
  }

  /** Before `execute`, every check and accessor fails with "hasn't been
      executed" and the builder is left as it was. */
  lemma AccessorsRequireExecution<V>(b: Builder<V>, acceptable: Nullable<seq<int>>, expected: Nullable<string>)
    requires !b.Executed()
    ensures AssertRequestExecuted(b) == Threw(NotExecuted)
    ensures CheckStatus(b, acceptable) == Step(b, Threw(NotExecuted))
    ensures CheckResponseContentType(b, expected) == Threw(NotExecuted)
    ensures GetStatus(b) == Threw(NotExecuted)
    ensures GetResponse(b) == Step(b, Threw(NotExecuted))
    ensures GetResponseAsString(b) == Step(b, Threw(NotExecuted))
  {
  }

  /** The setters do not look at the execution state: they are accepted
      after `execute` too, but they never touch the exchange the builder
      keeps, and the later checks and reads look only at its response and
      the explicit-check flag. */
  lemma SettersKeepExecutionState<V>(b: Builder<V>, text: Nullable<string>)
    ensures WithContentType(b, text).exchange == b.exchange
    ensures WithBody(b, text).exchange == b.exchange
    ensures WithResourceType(b, text).exchange == b.exchange
    ensures WithResourceSuperType(b, text).exchange == b.exchange
    ensures WithExtension(b, text).exchange == b.exchange
    ensures WithRequestMethod(b, text).state.exchange == b.exchange
    ensures WithContentType(b, text).explicitStatusCheck == b.explicitStatusCheck
    ensures WithBody(b, text).explicitStatusCheck == b.explicitStatusCheck
    ensures WithResourceType(b, text).explicitStatusCheck == b.explicitStatusCheck
    ensures WithResourceSuperType(b, text).explicitStatusCheck == b.explicitStatusCheck
    ensures WithExtension(b, text).explicitStatusCheck == b.explicitStatusCheck
    ensures WithRequestMethod(b, text).state.explicitStatusCheck == b.explicitStatusCheck
  {
  }

  /** The same for selectors and parameters: the request already handed
      to the delegate and the explicit-check flag stay as they were. */
  lemma SelectorAndParameterSettersKeepExecutionState<V>(
    b: Builder<V>, selectors: Nullable<seq<Nullable<string>>>,
    key: Nullable<string>, value: Nullable<V>, additional: Nullable<ParameterMap<V>>)
    ensures WithSelectors(b, selectors).exchange == b.exchange
    ensures WithParameter(b, key, value).state.exchange == b.exchange
    ensures WithParameters(b, additional).exchange == b.exchange
    ensures WithSelectors(b, selectors).explicitStatusCheck == b.explicitStatusCheck
    ensures WithParameter(b, key, value).state.explicitStatusCheck == b.explicitStatusCheck
    ensures WithParameters(b, additional).explicitStatusCheck == b.explicitStatusCheck
  {
  }

  /** Without an explicit check, reading the response fails exactly when
      the status is not 200, and because the flag is reset it fails again
      on every later read. */
  lemma ImplicitCheckRepeats<V>(b: Builder<V>)
    requires b.Executed() && !b.explicitStatusCheck
    ensures GetResponse(b).outcome.Threw? <==> b.exchange.value.response.status != StatusOk
    ensures GetResponseAsString(b).outcome.Threw? <==> b.exchange.value.response.status != StatusOk
    ensures !GetResponse(b).state.explicitStatusCheck
    ensures GetResponse(GetResponse(b).state) == GetResponse(b)
    ensures !GetResponseAsString(b).state.explicitStatusCheck
    ensures GetResponseAsString(GetResponseAsString(b).state) == GetResponseAsString(b)
  {
  }

  /** Any explicit `checkStatus` after execution, with no values, with
      values that match, or even with values that do not match (it throws
      after setting the flag), disables the implicit check: the response
      can then be read whatever its status. */
  lemma ExplicitCheckDisablesImplicit<V>(b: Builder<V>, acceptable: Nullable<seq<int>>)
    requires b.Executed()
    ensures var s := CheckStatus(b, acceptable).state;
      && GetResponse(s).outcome == Returned(b.exchange.value.response)
      && GetResponseAsString(s).outcome == Returned(b.exchange.value.response.output)
  {
  }

  /** A content-type check after `execute` tests the content type the
      back end left, exactly: a null expectation throws even when the
      response has no content type (`equals` is called on it), and the
      explicit-check flag plays no part. */
  lemma ContentTypeCheckAfterExecute<V>(b: Builder<V>, delegate: Delegate<V>, expected: Nullable<string>, flag: bool)
    requires !b.Executed()
    ensures var s := Execute(b, delegate).state;
      var actual := delegate(b.strategy, b.config).response.contentType;
      && (expected.Null? ==> CheckResponseContentType(s, expected) == Threw(NullPointerException))
      && (CheckResponseContentType(s, expected).Returned? <==> expected.NonNull? && actual == expected)
      && CheckResponseContentType(s.(explicitStatusCheck := flag), expected) == CheckResponseContentType(s, expected)
  {
  }

  /** Decimal renderings never contain a comma. */
  lemma NoCommaInStatus(i: int)
    ensures ',' !in IntToString(i)
  {
  }

  /** The expected values in the unexpected-status message can be read back
      exactly: split the list at commas and parse each piece. */
  lemma StatusListRoundTrip(vs: seq<int>)
    requires 0 < |vs|
    ensures |Split(CommaList(vs), ',')| == |vs|
    ensures forall i :: 0 <= i < |vs| ==> ParseInt(Split(CommaList(vs), ',')[i]) == NonNull(vs[i])
  {
    var items := StatusStrings(vs);
    forall i | 0 <= i < |items|
      ensures ',' !in items[i]
    {
      NoCommaInStatus(vs[i]);
    }
    SplitJoin(',', items);
    forall i | 0 <= i < |vs|
      ensures ParseInt(items[i]) == NonNull(vs[i])
    {
      IntToStringRoundTrip(vs[i]);
    }
  }

  /** The unexpected-status message names the actual status and every
      accepted value: after the fixed prefix comes the actual status,
      which parses back, and after the fixed connective comes the
      accepted list, which splits back into the accepted values
      (`StatusListRoundTrip`). */
  lemma UnexpectedStatusNamesBoth(actual: int, vs: seq<int>)
    ensures var m := UnexpectedStatus(actual, vs).message;
      var n := |UnexpectedStatusPrefix| + |IntToString(actual)|;
      var k := n + |ExpectedOneOf|;
      && |m| == k + |CommaList(vs)| + 1
      && m[..|UnexpectedStatusPrefix|] == UnexpectedStatusPrefix
      && ParseInt(m[|UnexpectedStatusPrefix|..n]) == NonNull(actual)
      && m[n..k] == ExpectedOneOf
      && m[k..|m| - 1] == CommaList(vs)
  {
    IntToStringRoundTrip(actual);
    Pieces(UnexpectedStatus(actual, vs).message, UnexpectedStatusPrefix, IntToString(actual),
      ExpectedOneOf, CommaList(vs), "'");
  }

  /** Where each piece of a five-part concatenation sits. */
  lemma Pieces(m: string, p: string, a: string, q: string, l: string, z: string)
    requires m == p + a + q + l + z
    ensures |m| == |p| + |a| + |q| + |l| + |z|
    ensures m[..|p|] == p
    ensures m[|p|..|p| + |a|] == a
    ensures m[|p| + |a|..|p| + |a| + |q|] == q
    ensures m[|p| + |a| + |q|..|m| - |z|] == l
  {
  }

  // ---------------------------------------------------------------------
  // Worked examples
  // ---------------------------------------------------------------------

  /** Selectors "print", "a4" give "print.a4". */
  lemma SelectorExamplePrint(b: Builder<string>)
    ensures WithSelectors(b, NonNull([NonNull("print"), NonNull("a4")])).config.selectorString == NonNull("print.a4")
  {
    var sels: seq<Nullable<string>> := [NonNull("print"), NonNull("a4")];
    var items := RenderSelectors(sels);
    assert items == ["print", "a4"];
    assert DropLeadingEmpty(items) == items;
    JoinPair(".", "print", "a4");
    PrintA4();
  }

  lemma PrintA4()
    ensures "print" + "." + "a4" == "print.a4"
  {
  }

  /** No selectors give the empty selector string. */
  lemma SelectorExampleEmpty(b: Builder<string>)
    ensures WithSelectors(b, NonNull([])).config.selectorString == NonNull("")
  {
  }

  /** A leading empty selector adds neither text nor a separator. */
  lemma SelectorExampleLeadingEmpty(b: Builder<string>)
    ensures WithSelectors(b, NonNull([NonNull(""), NonNull("a")])).config.selectorString == NonNull("a")
  {
    var sels: seq<Nullable<string>> := [NonNull(""), NonNull("a")];
    var items := RenderSelectors(sels);
    assert items == ["", "a"];
    assert items[1..] == ["a"];
    assert DropLeadingEmpty(items) == ["a"];
    assert ["a"][1..] == [];
    assert Join(".", ["a"]) == "a";
  }

  /** A trailing empty selector still adds a separator. */
  lemma SelectorExampleTrailingEmpty(b: Builder<string>)
    ensures WithSelectors(b, NonNull([NonNull("a"), NonNull("")])).config.selectorString == NonNull("a.")
  {
    var items := RenderSelectors([NonNull("a"), NonNull("")]);
    assert items == ["a", ""];
    assert DropLeadingEmpty(["a", ""]) == ["a", ""];
    assert Join(".", ["a", ""]) == "a." by {
      JoinPair(".", "a", "");
      assert "a" + "." + "" == "a.";
    }
  }

  /** A null selector is appended as "null". */
  lemma SelectorExampleNull(b: Builder<string>)
    ensures WithSelectors(b, NonNull([Null, NonNull("a")])).config.selectorString == NonNull("null.a")
  {
    var items := RenderSelectors([Null, NonNull("a")]);
    assert items == ["null", "a"];
    assert DropLeadingEmpty(["null", "a"]) == ["null", "a"];
    assert Join(".", ["null", "a"]) == "null.a" by {
      JoinPair(".", "null", "a");
      assert "null" + "." + "a" == "null.a";
    }
  }

  /** On a fresh builder of either strategy, the method "post" is stored
      as "POST"; a null method is refused. */
  lemma RequestMethodExamples(strategy: Strategy, path: string)
    ensures var b := New<string>(strategy, path);
      WithRequestMethod(b, NonNull("post")).state.config.requestMethod == "POST"
    ensures var b := New<string>(strategy, path);
      WithRequestMethod(b, Null).outcome == Threw(NullPointerException)
  {
    var u := ToUpperAscii("post");
    assert u[0] == 'P' && u[1] == 'O' && u[2] == 'S' && u[3] == 'T';
  }

  /** A null parameter key or value is refused with an illegal-argument
      error. */
  lemma NullParameterExamples(b: Builder<string>)
    ensures WithParameter(b, Null, NonNull("x")).outcome == Threw(IllegalArgumentException("Null key or value"))
    ensures WithParameter(b, NonNull("k"), Null).outcome == Threw(IllegalArgumentException("Null key or value"))
  {
  }

  /** The builder after executing against a delegate that answers with
      `status` and returns normally. */
  function ExecutedWith(strategy: Strategy, path: string, status: int): (b: Builder<string>)
    ensures b.Executed() && !b.explicitStatusCheck
    ensures b.exchange.value.response.status == status
  {
    var d := (s: Strategy, c: Config<string>) => Delegation(Response(status, NonNull("text/plain"), "body"), Null);
    Execute(New(strategy, path), d).state
  }

  /** Status 200 can be read without an explicit check. */
  lemma StatusExampleOk(strategy: Strategy, path: string)
    ensures GetResponse(ExecutedWith(strategy, path, 200)).outcome.Returned?
    ensures GetResponseAsString(ExecutedWith(strategy, path, 200)).outcome == Returned("body")
  {
  }

  /** Status 404 cannot be read without an explicit check, but
      `checkStatus(200, 404)` accepts it. */
  lemma StatusExampleNotFound(strategy: Strategy, path: string)
    ensures GetResponse(ExecutedWith(strategy, path, 404)).outcome == Threw(UnexpectedStatus(404, [StatusOk]))
    ensures CheckStatus(ExecutedWith(strategy, path, 404), NonNull([200, 404])).outcome.Returned?
  {
  }

  lemma Decimal500()
    ensures IntToString(500) == "500"
  {
    assert NatToString(5) == "5";
    assert NatToString(50) == NatToString(5) + "0";
    assert NatToString(500) == NatToString(50) + "0";
  }

  lemma List200()
    ensures Join(",", StatusStrings([200])) == "200"
  {
    assert IntToString(200) == "200" by {
      assert NatToString(2) == "2";
      assert NatToString(20) == NatToString(2) + "0";
      assert NatToString(200) == NatToString(20) + "0";
    }
    var items := StatusStrings([200]);
    assert items[0] == IntToString(200);
    assert items == ["200"];
    assert items[1..] == [];
  }

  lemma Message500()
    ensures UnexpectedStatusPrefix + "500" + ExpectedOneOf + "200" + "'"
      == "Unexpected response status 500, expected one of '200'"
  {
  }

  /** `checkStatus(200)` rejects 500 with a message naming both. */
  lemma StatusExampleServerError(strategy: Strategy, path: string)
    ensures CheckStatus(ExecutedWith(strategy, path, 500), NonNull([200])).outcome
      == Threw(IOException("Unexpected response status 500, expected one of '200'", Null))
  {
    var b := ExecutedWith(strategy, path, 500);
    var r := CheckStatus(b, NonNull([200]));
    assert r.outcome.Threw?;
    var m := r.outcome.exception.message;
    assert m == UnexpectedStatusPrefix + IntToString(500) + ExpectedOneOf + Join(",", StatusStrings([200])) + "'";
    Decimal500();
    List200();
    Message500();
  }

  /** A servlet failure in the delegate surfaces as an `IOException` whose
      cause is that failure, and the builder still counts as executed and
      keeps the response the delegate left. */
  lemma ServletFailureExample(path: string)
    ensures var sx := ServletException("boom");
      var d := (s: Strategy, c: Config<string>) => Delegation(Response(500, Null, ""), NonNull(sx));
      var r := Execute(New(ServletResolver, path), d);
      && r.outcome == Threw(IOException("ServletException in execute()", NonNull(sx)))
      && r.state.Executed()
      && GetStatus(r.state) == Returned(500)
  {
  }
}
