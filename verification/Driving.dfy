/** The lexer class under any client: fed, finished and called in whatever order, it goes through the runs
    that the theorems of ChunkIndependence, Lossless and Desync speak of. */
module Driving {
  import opened Tokens
  import opened ChunkIndependence
  import opened Lexing

  /** The lexer stands where the run does. */
  ghost predicate Carries(lexer: Lexer, r: Run)
    reads lexer
  {
    lexer.Valid() && lexer.State() == r.state && lexer.fed == r.received && lexer.finished == r.finished
  }

  /** One call, and what the client makes of the answer. */
  method CallOnce(lexer: Lexer, client: Client, before: Run) returns (r: Run)
    requires Carries(lexer, before) && before.ending.None? && before.state.pos <= |before.received|
    modifies lexer
    ensures r == Do(lexer.limits, client, before, Call) && Carries(lexer, r)
  {
    var result := lexer.Next(client.mode(before.tokens));
    r := before.(state := lexer.State());
    match result
    case Got(t) =>
      var refused := client.verdict(before.tokens, t);
      if refused.Some? {
        r := r.(ending := Some(Malformed(refused.value)));
      } else {
        r := r.(tokens := Merge(before.tokens, t));
      }
    case NeedMore =>
    case EndOfInput => r := r.(ending := Some(Clean));
    case Failed(e) => r := r.(ending := Some(Malformed(e)));
  }

  method Act(lexer: Lexer, client: Client, before: Run, action: Action) returns (r: Run)
    requires Carries(lexer, before) && before.state.pos <= |before.received|
    modifies lexer
    ensures r == Do(lexer.limits, client, before, action) && Carries(lexer, r)
  {
    match action
    case Feed(bytes) =>
      if !before.finished {
        lexer.Feed(bytes);
        r := before.(received := before.received + bytes);
      } else {
        r := before;
      }
    case Finish =>
      lexer.FinishInput();
      r := before.(finished := true);
    case Call =>
      if before.ending.None? {
        r := CallOnce(lexer, client, before);
      } else {
        r := before;
      }
  }

  /** Any list of actions, on a new lexer, for any client. */
  method Drive(limits: Limits, client: Client, actions: seq<Action>) returns (lexer: Lexer, r: Run)
    ensures fresh(lexer) && lexer.limits == limits
    ensures r == DoAll(limits, client, actions) && Carries(lexer, r)
  {
    lexer := new Lexer(limits);
    r := BEGINNING;
    for i := 0 to |actions|
      invariant r == DoAll(limits, client, actions[..i]) && Carries(lexer, r)
    {
      assert actions[..i + 1][..i] == actions[..i];
      r := Act(lexer, client, r, actions[i]);
    }
    assert actions[..|actions|] == actions;
  }
}
