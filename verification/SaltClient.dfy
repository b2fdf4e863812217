/**
 The session of a Salt API client: a token that the server may reject at any time,
 and requests that must not be executed twice.
 */
module SaltClient {
  import opened Results

  datatype Token = Token(value: string, expire: int)

  // One request and its answer. `status` is `None` when there was no answer, whether
  // or not the request went out.
  datatype Event =
    | Login(granted: Option<Token>)
    | Sent(token: Token, status: Option<int>, executed: bool)

  type Trace = seq<Event>

  const UNAUTHORIZED := 401
  const SUCCESS := 200

  predicate Rejected(e: Event) {
    e.Sent? && e.status == Some(401)
  }

  // ----- What a trace says -----

  datatype EventKind = Logins | Sends | Executions

  predicate IsOf(kind: EventKind, e: Event) {
    match kind
    case Logins => e.Login?
    case Sends => e.Sent?
    case Executions => e.Sent? && e.executed
  }

  function Count(kind: EventKind, trace: Trace): nat {
    if trace == [] then 0
    else Count(kind, trace[..|trace| - 1]) + if IsOf(kind, trace[|trace| - 1]) then 1 else 0
  }

  /** The token that the last successful login of the trace granted, or else `token`. */
  function Granted(token: Option<Token>, trace: Trace): Option<Token> {
    if trace == [] then token
    else
      var last := trace[|trace| - 1];
      if last.Login? && last.granted.Some? then last.granted
      else Granted(token, trace[..|trace| - 1])
  }

  /** Every request carries the token granted last, if any was. */
  ghost predicate CarriesGranted(token: Option<Token>, trace: Trace) {
    forall i | 0 <= i < |trace| && trace[i].Sent? :: Some(trace[i].token) == Granted(token, trace[..i])
  }

  /** Nothing is sent after a request that was not rejected, nor after a login that failed. */
  ghost predicate StopsInTime(trace: Trace) {
    forall i | 0 <= i < |trace| - 1 :: Rejected(trace[i]) || (trace[i].Login? && trace[i].granted.Some?)
  }

  /**
   The events of an authenticated request once there is a token: the request is sent;
   if it is rejected, there is a login and, with the new token, a second request.
   */
  predicate WithToken(token: Token, trace: Trace, token': Option<Token>) {
    && trace != [] && trace[0].Sent? && trace[0].token == token
    && if !Rejected(trace[0]) then |trace| == 1 && token' == Some(token)
       else
         && !trace[0].executed
         && |trace| > 1 && trace[1].Login?
         && if trace[1].granted.None? then |trace| == 2 && token' == None
            else |trace| == 3 && trace[2].Sent? && Some(trace[2].token) == trace[1].granted
                 && (Rejected(trace[2]) ==> !trace[2].executed)
                 && token' == trace[1].granted
  }

  /** The events of an authenticated request that starts with `token` and leaves `token'`. */
  predicate OneCall(token: Option<Token>, trace: Trace, token': Option<Token>) {
    || (token.Some? && WithToken(token.value, trace, token'))
    || (&& trace != [] && trace[0].Login?
        && if trace[0].granted.None? then |trace| == 1 && token' == token
           else WithToken(trace[0].granted.value, trace[1..], token'))
  }

  lemma CountOne(kind: EventKind, trace: Trace, e: Event)
    ensures Count(kind, trace + [e]) == Count(kind, trace) + if IsOf(kind, e) then 1 else 0
  {
    assert (trace + [e])[..|trace|] == trace;
  }

  lemma GrantedOne(token: Option<Token>, trace: Trace, e: Event)
    ensures Granted(token, trace + [e]) == if e.Login? && e.granted.Some? then e.granted else Granted(token, trace)
  {
    assert (trace + [e])[..|trace|] == trace;
  }

  lemma CarriesOne(token: Option<Token>, trace: Trace, e: Event)
    requires CarriesGranted(token, trace)
    requires e.Sent? ==> Some(e.token) == Granted(token, trace)
    ensures CarriesGranted(token, trace + [e])
  {
    var longer := trace + [e];
    forall i | 0 <= i < |longer| && longer[i].Sent? ensures Some(longer[i].token) == Granted(token, longer[..i]) {
      if i < |trace| {
        assert longer[..i] == trace[..i];
      } else {
        assert longer[..i] == trace;
      }
    }
  }

  lemma CountThree(kind: EventKind, trace: Trace)
    requires |trace| <= 3
    ensures Count(kind, trace) ==
            (if |trace| > 0 && IsOf(kind, trace[0]) then 1 else 0)
            + (if |trace| > 1 && IsOf(kind, trace[1]) then 1 else 0)
            + (if |trace| > 2 && IsOf(kind, trace[2]) then 1 else 0)
  {
    if |trace| > 0 {
      assert trace == trace[..|trace| - 1] + [trace[|trace| - 1]];
      CountThree(kind, trace[..|trace| - 1]);
    }
  }

  lemma GrantedNone(token: Option<Token>)
    ensures Granted(token, []) == token
  {
  }

  lemma WithTokenCounts(token: Token, trace: Trace, token': Option<Token>)
    requires WithToken(token, trace, token')
    ensures Count(Sends, trace) <= 2 && Count(Logins, trace) <= 1 && Count(Executions, trace) <= 1
  {
    hide Count;
    CountThree(Sends, trace);
    CountThree(Logins, trace);
    CountThree(Executions, trace);
  }

  lemma WithTokenGranted(token: Token, trace: Trace, token': Option<Token>)
    requires WithToken(token, trace, token')
    ensures CarriesGranted(Some(token), trace) && StopsInTime(trace)
    ensures token'.Some? ==> token' == Granted(Some(token), trace)
  {
    hide Granted;
    var start := Some(token);
    GrantedNone(start);
    GrantedOne(start, [], trace[0]);
    assert trace[..0] == [] && trace[..1] == [] + [trace[0]];
    if |trace| == 1 {
      assert trace == trace[..1];
    } else {
      GrantedOne(start, trace[..1], trace[1]);
      assert trace[..2] == trace[..1] + [trace[1]];
      if |trace| == 3 {
        GrantedOne(start, trace[..2], trace[2]);
        assert trace == trace[..2] + [trace[2]];
      }
    }
  }

  /**
   One call logs in twice at most, sends the request twice at most, and has it
   executed once at most. Each request carries the token granted last.
   */
  lemma AtMostOnce(token: Option<Token>, trace: Trace, token': Option<Token>)
    requires OneCall(token, trace, token')
    ensures Count(Logins, trace) <= 2 && Count(Sends, trace) <= 2 && Count(Executions, trace) <= 1
    ensures CarriesGranted(token, trace) && StopsInTime(trace)
    ensures token'.Some? ==> token' == Granted(token, trace)
  {
    if token.Some? && WithToken(token.value, trace, token') {
      WithTokenCounts(token.value, trace, token');
      WithTokenGranted(token.value, trace, token');
    } else {
      var head, rest := [trace[0]], trace[1..];
      assert trace == head + rest;
      assert head == [] + [trace[0]];
      GrantedOne(token, [], trace[0]);
      forall kind ensures Count(kind, trace) == Count(kind, head) + Count(kind, rest) {
        CountConcat(kind, head, rest);
      }
      CountThree(Logins, head);
      CountThree(Sends, head);
      CountThree(Executions, head);
      if trace[0].granted.Some? {
        WithTokenCounts(trace[0].granted.value, rest, token');
        WithTokenGranted(trace[0].granted.value, rest, token');
        GrantedConcat(token, head, rest);
        forall i | 0 <= i < |trace| && trace[i].Sent? ensures Some(trace[i].token) == Granted(token, trace[..i]) {
          assert trace[..i] == head + rest[..i - 1];
          GrantedConcat(token, head, rest[..i - 1]);
          assert rest[i - 1] == trace[i];
        }
        forall i | 0 <= i < |trace| - 1 ensures Rejected(trace[i]) || (trace[i].Login? && trace[i].granted.Some?) {
          assert i > 0 ==> trace[i] == rest[i - 1];
        }
      } else {
        assert rest == [] && trace == head;
      }
    }
  }

  lemma {:induction false} CountConcat(kind: EventKind, a: Trace, b: Trace)
    ensures Count(kind, a + b) == Count(kind, a) + Count(kind, b)
  {
    if b == [] {
      assert a + b == a;
    } else {
      var n := |b| - 1;
      assert a + b == (a + b[..n]) + [b[n]];
      CountOne(kind, a + b[..n], b[n]);
      CountConcat(kind, a, b[..n]);
    }
  }

  lemma {:induction false} GrantedConcat(token: Option<Token>, a: Trace, b: Trace)
    ensures Granted(token, a + b) == Granted(Granted(token, a), b)
  {
    if b == [] {
      assert a + b == a;
    } else {
      var n := |b| - 1;
      assert a + b == (a + b[..n]) + [b[n]];
      GrantedOne(token, a + b[..n], b[n]);
      GrantedConcat(token, a, b[..n]);
    }
  }

  /** What a token is worth: it was granted by some login of the trace. */
  ghost predicate FromLogin(trace: Trace, token: Token) {
    exists i | 0 <= i < |trace| :: trace[i] == Login(Some(token))
  }

  lemma {:induction false} GrantedIsFromLogin(trace: Trace)
    ensures Granted(None, trace).Some? ==> FromLogin(trace, Granted(None, trace).value)
  {
    if trace != [] {
      var n := |trace| - 1;
      GrantedIsFromLogin(trace[..n]);
      if !(trace[n].Login? && trace[n].granted.Some?) && Granted(None, trace).Some? {
        var i :| 0 <= i < n && trace[..n][i] == Login(Some(Granted(None, trace).value));
        assert trace[i] == Login(Some(Granted(None, trace).value));
      } else if trace[n].Login? && trace[n].granted.Some? {
        assert trace[n] == Login(Some(Granted(None, trace).value));
      }
    }
  }

  // ----- The client -----

  // An answer: a status, and what could be read out of the body. `None` is no answer.
  type Answer<T> = Option<(int, Option<T>)>

  // What the server does during one authenticated request.
  datatype Script<T> = Script(
    firstLogin: Answer<Token>, firstReply: Answer<T>, firstExecuted: bool,
    secondLogin: Answer<Token>, secondReply: Answer<T>, secondExecuted: bool)

  /** A server executes nothing that it rejects, and answers with a result only when it executed. */
  predicate Honest<T>(reply: Answer<T>, executed: bool) {
    && (reply.Some? && reply.value.0 == 401 ==> !executed)
    && (reply.Some? && reply.value.0 == 200 && reply.value.1.Some? ==> executed)
  }

  datatype Outcome<T> = Done(value: T) | Failed | Panicked

  function StatusOf<T>(reply: Answer<T>): Option<int> {
    if reply.Some? then Some(reply.value.0) else None
  }

  /** The content of an answer, if it is a success and its content could be read. */
  function ContentOf<T>(reply: Answer<T>): Option<T> {
    if reply.Some? && reply.value.0 == 200 then reply.value.1 else None
  }

  function GrantedBy(reply: Answer<Token>): Option<Token> {
    ContentOf(reply)
  }

  /** What the caller gets from an answer. */
  function OutcomeOf<T>(reply: Answer<T>): Outcome<T> {
    if ContentOf(reply).Some? then Done(ContentOf(reply).value) else Failed
  }

  /** The events once there is a token, and what the caller gets, are as the server makes them. */
  ghost predicate AsScripted<T>(script: Script<T>, token: Token, seg: Trace, r: Outcome<T>) {
    && seg != [] && seg[0] == Sent(token, StatusOf(script.firstReply), script.firstExecuted)
    && (|seg| == 1 ==> r == OutcomeOf(script.firstReply))
    && (|seg| > 1 ==> seg[1] == Login(GrantedBy(script.secondLogin)))
    && (|seg| == 2 ==> r == Failed)
    && (|seg| == 3 ==>
          && seg[1].Login? && seg[1].granted.Some?
          && seg[2] == Sent(seg[1].granted.value, StatusOf(script.secondReply), script.secondExecuted)
          && r == if script.secondReply.None? then Panicked else OutcomeOf(script.secondReply))
  }

  class Client {
    var token: Option<Token>
    var now: int
    ghost var trace: Trace

    /** The token is absent, or the last one granted; every request ever sent carried the token granted last. */
    ghost predicate Valid()
      reads this
    {
      && (token.Some? ==> token == Granted(None, trace))
      && CarriesGranted(None, trace)
    }

    constructor (time: int)
      ensures Valid() && token == None && trace == []
    {
      token, now, trace := None, time, [];
    }

    method Clock()
      modifies this`now
      ensures old(now) <= now
    {
      var elapsed: int := *;
      if 0 < elapsed {
        now := now + elapsed;
      }
    }

    /** Ask for a token. `reply` is what the server answers, if anything: a token, when the answer holds one. */
    method Authenticate(reply: Answer<Token>) returns (ok: bool, ghost e: Event)
      requires Valid()
      modifies this`token, this`trace
      ensures Valid()
      ensures e == Login(GrantedBy(reply)) && trace == old(trace) + [e]
      ensures ok <==> e.granted.Some?
      ensures token == if ok then e.granted else old(token)
    {
      ok := false;
      e := Login(None);
      if reply.Some? {
        var status, granted := reply.value.0, reply.value.1;
        if status == SUCCESS && granted.Some? {
          token := granted;
          ok := true;
          e := Login(granted);
        }
      }
      CarriesOne(None, trace, e);
      GrantedOne(None, trace, e);
      trace := trace + [e];
    }

    /** Send the request with the token, which must be there. */
    method Send<T>(reply: Answer<T>, executed: bool) returns (response: Answer<T>, ghost e: Event)
      requires Valid() && token.Some?
      modifies this`trace
      ensures Valid()
      ensures response == reply && trace == old(trace) + [e]
      ensures e == Sent(token.value, StatusOf(reply), executed)
    {
      response := reply;
      e := Sent(token.value, StatusOf(reply), executed);
      CarriesOne(None, trace, e);
      GrantedOne(None, trace, e);
      trace := trace + [e];
    }

    /** Send the request with the token; if it is rejected, log in and send it once more. */
    method SendOrRetry<T>(script: Script<T>) returns (r: Outcome<T>, ghost seg: Trace)
      requires Valid() && token.Some?
      requires Honest(script.firstReply, script.firstExecuted) && Honest(script.secondReply, script.secondExecuted)
      modifies this`token, this`trace
      ensures Valid() && trace == old(trace) + seg
      ensures WithToken(old(token).value, seg, token)
      ensures AsScripted(script, old(token).value, seg, r)
      ensures r.Done? ==> var last := seg[|seg| - 1]; last.Sent? && last.executed && last.status == Some(200)
      ensures r.Panicked? <==> |seg| == 3 && seg[2].status.None?
    {
      var response;
      ghost var e, e', e'';
      response, e := Send(script.firstReply, script.firstExecuted);
      seg := [e];
      if response.None? {
        return Failed, seg;
      }
      if response.value.0 == UNAUTHORIZED {
        token := None;
        var ok;
        ok, e' := Authenticate(script.secondLogin);
        seg := [e, e'];
        if !ok {
          return Failed, seg;
        }
        response, e'' := Send(script.secondReply, script.secondExecuted);
        seg := [e, e', e''];
        // The error of the second request is not looked at: without a response the client panics.
        if response.None? {
          return Panicked, seg;
        }
      }
      if response.value.0 != SUCCESS || response.value.1.None? {
        return Failed, seg;
      }
      r := Done(response.value.1.value);
    }

    /**
     Send an authenticated request, logging in first if there is no token or it has
     expired, and once more if the token is rejected. The server's answers, and whether
     it executes what it gets, are as in `script`.
     */
    method AuthenticatedRequest<T>(script: Script<T>) returns (r: Outcome<T>, ghost seg: Trace)
      requires Valid()
      requires Honest(script.firstReply, script.firstExecuted) && Honest(script.secondReply, script.secondExecuted)
      modifies this
      ensures Valid() && trace == old(trace) + seg
      ensures OneCall(old(token), seg, token)
      ensures seg[0].Login? <==> old(token).None? || now > old(token).value.expire
      ensures if seg[0].Sent? then AsScripted(script, old(token).value, seg, r)
              else seg[0] == Login(GrantedBy(script.firstLogin))
                   && if seg[0].granted.None? then r == Failed
                      else AsScripted(script, seg[0].granted.value, seg[1..], r)
      ensures r.Done? ==>
                var last := seg[|seg| - 1];
                last.Sent? && last.executed && last.status == Some(200) && Count(Executions, seg) == 1
      ensures r.Panicked? ==> Count(Sends, seg) == 2 && seg[|seg| - 1].Sent? && seg[|seg| - 1].status.None?
    {
      hide WithToken, AsScripted, Count, Granted, CarriesGranted;
      ghost var start := token;
      seg := [];
      Clock();
      if token.None? || now > token.value.expire {
        var ok;
        ghost var e;
        ok, e := Authenticate(script.firstLogin);
        seg := [e];
        if !ok {
          return Failed, seg;
        }
      }
      ghost var held, rest := token.value, [];
      r, rest := SendOrRetry(script);
      ghost var first := seg;
      assert first + rest == if first == [] then rest else [first[0]] + rest;
      assert first != [] ==> (first + rest)[1..] == rest;
      seg := first + rest;
      SentFirst(script, held, rest, r);
      OutcomeKept(held, first, rest, token, r.Done?, r.Panicked?);
    }
  }

  lemma SentFirst<T>(script: Script<T>, token: Token, seg: Trace, r: Outcome<T>)
    requires AsScripted(script, token, seg, r)
    ensures seg != [] && seg[0].Sent?
  {
  }

  /** Executions and sends of a call, with the login that may come first. */
  lemma OutcomeKept(held: Token, first: Trace, rest: Trace, token': Option<Token>, done: bool, panicked: bool)
    requires first == [] || (|first| == 1 && first[0].Login?)
    requires WithToken(held, rest, token')
    requires done ==> rest[|rest| - 1].Sent? && rest[|rest| - 1].executed
    requires panicked ==> |rest| == 3
    ensures done ==> Count(Executions, first + rest) == 1
    ensures panicked ==> Count(Sends, first + rest) == 2
  {
    CountConcat(Executions, first, rest);
    CountConcat(Sends, first, rest);
    CountThree(Executions, first);
    CountThree(Executions, rest);
    CountThree(Sends, first);
    CountThree(Sends, rest);
  }

  /** A session is a sequence of calls, each with its events and the token that it leaves. */
  ghost predicate Session(calls: seq<Trace>, tokens: seq<Option<Token>>) {
    && |tokens| == |calls| + 1 && tokens[0] == None
    && forall i | 0 <= i < |calls| :: OneCall(tokens[i], calls[i], tokens[i + 1])
  }

  ghost function Flatten(calls: seq<Trace>): Trace {
    if calls == [] then [] else Flatten(calls[..|calls| - 1]) + calls[|calls| - 1]
  }

  /** Over any sequence of calls there are no more executions than calls, and at most two logins and sends for each. */
  lemma {:induction false} SessionAtMostOnce(calls: seq<Trace>, tokens: seq<Option<Token>>)
    requires Session(calls, tokens)
    ensures Count(Executions, Flatten(calls)) <= |calls|
    ensures Count(Logins, Flatten(calls)) <= 2 * |calls| && Count(Sends, Flatten(calls)) <= 2 * |calls|
  {
    if calls != [] {
      var n := |calls| - 1;
      SessionAtMostOnce(calls[..n], tokens[..n + 1]);
      AtMostOnce(tokens[n], calls[n], tokens[n + 1]);
      CountConcat(Executions, Flatten(calls[..n]), calls[n]);
      CountConcat(Logins, Flatten(calls[..n]), calls[n]);
      CountConcat(Sends, Flatten(calls[..n]), calls[n]);
    }
  }

  /** The token of a client always comes from a login that granted it. */
  lemma TokenIsFromLogin(token: Option<Token>, trace: Trace)
    requires token.Some? ==> token == Granted(None, trace)
    ensures token.Some? ==> FromLogin(trace, token.value)
  {
    GrantedIsFromLogin(trace);
  }
}
