// handler.go: Handler.reply, and two endpoints that answer each other.
module Replies {
  import opened Words
  import opened Flags
  import opened Environment

  /** What a reply depends on and decides. */
  datatype Note = Note(magic: Byte, flag: Flag, index: I32)

  predicate IsRequest(n: Note) {
    !Has(n.flag, CONFIRM) && !Has(n.flag, NOREPLY)
  }

  /** The message that SendWithMagic is asked to send. */
  datatype Answer = Answer(note: Note, path: Bytes, body: Bytes)

  /** The confirm for a message that came under `path`; `s2c` is the configured confirm path. The
      body is None when serializing the reply fails. */
  method Reply(n: Note, path: Bytes, s2c: Bytes, body: Option<Bytes>, sends: bool) returns (r: Option<Answer>)
    ensures r.Some? <==> ReplyTo(n, body.Some? && sends).Some?
    ensures r.Some? ==>
              && r.value.note == ReplyTo(n, true).value
              && r.value.path == (if s2c == [] then path else s2c)
              && Some(r.value.body) == body
  {
    if Has(n.flag, CONFIRM) || Has(n.flag, NOREPLY) {
      return None;
    }
    var replyFlag := CONFIRM;
    if Has(n.flag, HEARTBEAT) {
      replyFlag := Set(replyFlag, HEARTBEAT);
    }
    var replyConfirm := path;
    if s2c != [] {
      replyConfirm := s2c;
    }
    if body.None? || !sends {
      return None;
    }
    return Some(Answer(Note(n.magic, replyFlag, n.index), replyConfirm, body.value));
  }

  function ReplyTo(n: Note, sends: bool): Option<Note> {
    if IsRequest(n) && sends then
      Some(Note(n.magic, if Has(n.flag, HEARTBEAT) then Set(CONFIRM, HEARTBEAT) else CONFIRM, n.index))
    else None
  }

  /** A confirm carries magic, index and heartbeat mark of its request, asks for nothing back, and has no
      other mark. */
  lemma ReplyShape(n: Note)
    ensures ReplyTo(n, true).Some? <==> IsRequest(n)
    ensures IsRequest(n) <==> n.flag & (CONFIRM | NOREPLY) == 0
    ensures ReplyTo(n, false).None?
    ensures ReplyTo(n, true).Some? ==>
              var c := ReplyTo(n, true).value;
              c.magic == n.magic && c.index == n.index && Has(c.flag, CONFIRM) && !IsRequest(c)
              && (Has(c.flag, HEARTBEAT) <==> Has(n.flag, HEARTBEAT))
              && forall u: Flag :: u & (CONFIRM | HEARTBEAT) == 0 ==> !Has(c.flag, u)
  {}

  /** A message on its way to one of the two endpoints. */
  datatype Flight = Flight(toServer: bool, note: Note)

  /** What flies back when this message is handled. */
  function Back(f: Flight, sends: bool): seq<Flight> {
    match ReplyTo(f.note, sends)
    case None => []
    case Some(c) => [Flight(!f.toServer, c)]
  }

  /** Handle the i-th message in flight. */
  function Handle(flying: seq<Flight>, i: nat, sends: bool): seq<Flight>
    requires i < |flying|
  {
    flying[..i] + flying[i + 1..] + Back(flying[i], sends)
  }

  /** The confirm of a message, on its way back. */
  predicate Confirms(c: Flight, f: Flight) {
    c.toServer == !f.toServer && c.note.magic == f.note.magic && c.note.index == f.note.index
    && Has(c.note.flag, CONFIRM) && (Has(c.note.flag, HEARTBEAT) <==> Has(f.note.flag, HEARTBEAT))
  }

  /** Handling a message takes it out of the air, puts its confirm there if it is a request and the send
      succeeds, and touches nothing else. */
  lemma HandleConserves(flying: seq<Flight>, i: nat, sends: bool)
    requires i < |flying|
    ensures var rest := multiset(flying) - multiset{flying[i]};
            if IsRequest(flying[i].note) && sends then
              exists c :: Confirms(c, flying[i]) && multiset(Handle(flying, i, sends)) == rest + multiset{c}
            else multiset(Handle(flying, i, sends)) == rest
  {
    var f := flying[i];
    ReplyShape(f.note);
    Parted(flying, i);
    assert flying == flying[..i] + ([f] + flying[i + 1..]);
    if IsRequest(f.note) && sends {
      var c := Flight(!f.toServer, ReplyTo(f.note, true).value);
      assert Confirms(c, f) && Back(f, sends) == [c];
    }
  }

  /** Two for a request, one for anything else. */
  function Weight(flying: seq<Flight>): nat {
    if flying == [] then 0 else (if IsRequest(flying[0].note) then 2 else 1) + Weight(flying[1..])
  }

  lemma {:induction false} WeightSplit(a: seq<Flight>, b: seq<Flight>)
    ensures Weight(a + b) == Weight(a) + Weight(b)
    decreases |a|
  {
    if a == [] {
      assert a + b == b;
    } else {
      assert (a + b)[1..] == a[1..] + b;
      WeightSplit(a[1..], b);
    }
  }

  /** Every handled message makes the weight smaller, so that replies cannot go on for ever. */
  lemma HandleLightens(flying: seq<Flight>, i: nat, sends: bool)
    requires i < |flying|
    ensures Weight(Handle(flying, i, sends)) < Weight(flying)
  {
    var f := flying[i];
    var a, b, back := flying[..i], flying[i + 1..], Back(f, sends);
    hide Back, Weight;
    BackWeight(f, sends);
    Parted(flying, i);
    WeightParts(a, f, b, back);
  }

  lemma Parted<T>(s: seq<T>, i: nat)
    requires i < |s|
    ensures s == s[..i] + ([s[i]] + s[i + 1..])
  {}

  lemma WeightParts(a: seq<Flight>, f: Flight, b: seq<Flight>, back: seq<Flight>)
    ensures Weight(a + ([f] + b)) == Weight(a) + Weight([f]) + Weight(b)
    ensures Weight(a + b + back) == Weight(a) + Weight(b) + Weight(back)
  {
    hide Weight;
    WeightSplit(a, [f] + b);
    WeightSplit([f], b);
    WeightSplit(a + b, back);
    WeightSplit(a, b);
  }

  lemma BackWeight(f: Flight, sends: bool)
    ensures Weight(Back(f, sends)) < Weight([f])
  {}

  datatype Choice = Choice(i: nat, sends: bool)

  /** A run: in every state one of the messages in flight is handled. */
  ghost predicate IsRun(states: seq<seq<Flight>>, choices: seq<Choice>) {
    && |states| == |choices| + 1
    && forall k :: 0 <= k < |choices| ==>
         choices[k].i < |states[k]| && states[k + 1] == Handle(states[k], choices[k].i, choices[k].sends)
  }

  lemma {:induction false} RunsEnd(states: seq<seq<Flight>>, choices: seq<Choice>)
    requires IsRun(states, choices)
    ensures |choices| + Weight(states[|choices|]) <= Weight(states[0])
    decreases |choices|
  {
    if choices != [] {
      var n := |choices| - 1;
      assert IsRun(states[..n + 1], choices[..n]);
      RunsEnd(states[..n + 1], choices[..n]);
      HandleLightens(states[n], choices[n].i, choices[n].sends);
    }
  }

  /** A request, and its confirm, by the endpoint that answers, the magic and the index. */
  datatype Key = Key(server: bool, magic: Byte, index: I32)

  function KeyOf(f: Flight): Key {
    Key(f.toServer, f.note.magic, f.note.index)
  }

  function Requests(flying: seq<Flight>): multiset<Key> {
    if flying == [] then multiset{}
    else (if IsRequest(flying[0].note) then multiset{KeyOf(flying[0])} else multiset{}) + Requests(flying[1..])
  }

  lemma {:induction false} RequestsSplit(a: seq<Flight>, b: seq<Flight>)
    ensures Requests(a + b) == Requests(a) + Requests(b)
    decreases |a|
  {
    if a == [] {
      assert a + b == b;
    } else {
      assert (a + b)[1..] == a[1..] + b;
      RequestsSplit(a[1..], b);
    }
  }

  /** The confirm that a step makes, under the key of the endpoint that made it. */
  function Made(f: Flight, sends: bool): multiset<Key> {
    match ReplyTo(f.note, sends)
    case None => multiset{}
    case Some(c) => multiset{Key(f.toServer, c.magic, c.index)}
  }

  /** A confirm is made only in place of its request. */
  lemma HandleRequests(flying: seq<Flight>, i: nat, sends: bool)
    requires i < |flying|
    ensures Requests(Handle(flying, i, sends)) + Made(flying[i], sends) <= Requests(flying)
  {
    var f := flying[i];
    var a, b, back := flying[..i], flying[i + 1..], Back(f, sends);
    hide Back, Made, Requests;
    BackRequests(f, sends);
    Parted(flying, i);
    RequestsApart(a, f, b);
    RequestsSplit(a + b, back);
  }

  lemma RequestsApart(a: seq<Flight>, f: Flight, b: seq<Flight>)
    ensures Requests(a + ([f] + b)) == Requests(a + b) + Requests([f])
  {
    hide Requests;
    RequestsSplit(a, [f] + b);
    RequestsSplit([f], b);
    RequestsSplit(a, b);
  }

  lemma BackRequests(f: Flight, sends: bool)
    ensures Requests(Back(f, sends)) == multiset{} && Made(f, sends) <= Requests([f])
  {}

  /** All confirms made in a run. */
  ghost function MadeIn(states: seq<seq<Flight>>, choices: seq<Choice>): multiset<Key>
    requires IsRun(states, choices)
    decreases |choices|
  {
    if choices == [] then multiset{}
    else
      var n := |choices| - 1;
      MadeIn(states[..n + 1], choices[..n]) + Made(states[n][choices[n].i], choices[n].sends)
  }

  /** In any run each confirm answers a request of the start, carrying its magic and index, and no
      request gets two. */
  lemma {:induction false} OneConfirmEach(states: seq<seq<Flight>>, choices: seq<Choice>)
    requires IsRun(states, choices)
    ensures Requests(states[|choices|]) + MadeIn(states, choices) <= Requests(states[0])
    decreases |choices|
  {
    hide Handle, Made, Requests;
    if choices != [] {
      var n := |choices| - 1;
      OneConfirmEach(states[..n + 1], choices[..n]);
      HandleRequests(states[n], choices[n].i, choices[n].sends);
    }
  }
}
