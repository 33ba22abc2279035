/** Messages split into a header and a payload on two tags, over links that keep the order of each tag. */
module MpiFraming {
  import opened Wrappers

  const MESSAGE_MAGIC := 0xDA7A1E00
  const ENVELOPE_VERSION := 1

  type Bytes = seq<int>

  datatype Header = Header(magic: int, version: int, msgType: nat, taskId: nat, payloadLen: nat)

  /** A message as the sender holds it; its payload pointer may be null. */
  datatype Message = Message(header: Header, payload: Option<Bytes>)

  predicate HeaderValid(h: Header) {
    h.magic == MESSAGE_MAGIC && h.version == ENVELOPE_VERSION
  }

  /** message_validate, where `capacity` is the size of the payload buffer. */
  predicate Validate(h: Header, capacity: nat) {
    HeaderValid(h) && h.payloadLen <= capacity
  }

  /** A header with the payload that belongs to it, empty when its length is zero. */
  datatype Frame = Frame(header: Header, body: Bytes)

  /** One direction between two ranks: the two tag queues, the half-sent and half-received message, and both histories. */
  datatype Link = Link(src: nat, dst: nat, headers: seq<Header>, payloads: seq<Bytes>,
                       unsent: Option<Bytes>, held: Option<Header>, sent: seq<Frame>, received: seq<Frame>)

  type Network = seq<Link>

  predicate Initial(y: Network) {
    forall k | 0 <= k < |y| ::
      y[k].headers == [] && y[k].payloads == [] && y[k].unsent == None && y[k].held == None && y[k].sent == [] && y[k].received == []
  }

  datatype Event =
    | PostHeader(k: nat, m: Message, capacity: nat, ok: bool)   // mpi_send up to the header, `ok` its outcome
    | PostPayload(k: nat, ok: bool)                             // the second half of mpi_send
    | TakeHeader(k: nat, buffered: bool)                        // mpi_recv up to the payload, `buffered` if memory was found
    | TakePayload(k: nat)                                       // the second half of mpi_recv

  /** A rank inside one of its sends or receives starts no other. */
  predicate Sending(y: Network, rank: nat) {
    exists k | 0 <= k < |y| :: y[k].src == rank && y[k].unsent.Some?
  }

  predicate Receiving(y: Network, rank: nat) {
    exists k | 0 <= k < |y| :: y[k].dst == rank && y[k].held.Some?
  }

  predicate Enabled(y: Network, e: Event) {
    e.k < |y| &&
    match e
    case PostHeader(k, m, capacity, ok) =>
      !Sending(y, y[k].src) && Validate(m.header, capacity) && (m.payload.Some? ==> capacity == |m.payload.value|)
    case PostPayload(k, ok) => y[k].unsent.Some?
    case TakeHeader(k, buffered) => !Receiving(y, y[k].dst) && y[k].headers != []
    case TakePayload(k) => y[k].held.Some? && y[k].payloads != []
  }

  /** What goes out for the message: its header, then the first payloadLen bytes if there is a payload. */
  function Posted(l: Link, m: Message): Link
    requires m.payload.Some? ==> m.header.payloadLen <= |m.payload.value|
  {
    if m.header.payloadLen > 0 && m.payload.Some? then
      var body := m.payload.value[..m.header.payloadLen];
      l.(headers := l.headers + [m.header], unsent := Some(body), sent := l.sent + [Frame(m.header, body)])
    else
      l.(headers := l.headers + [m.header], sent := l.sent + [Frame(m.header, [])])
  }

  /** A header without payload is delivered at once; otherwise it is held until its payload comes. */
  function Taken(l: Link): Link
    requires l.headers != []
  {
    var h := l.headers[0];
    if h.payloadLen > 0 then l.(headers := l.headers[1..], held := Some(h))
    else l.(headers := l.headers[1..], received := l.received + [Frame(h, [])])
  }

  /** The oldest payload goes to the held header. A payload longer than announced is a truncation error: it is consumed
      and nothing is delivered. */
  function Joined(l: Link): Link
    requires l.held.Some? && l.payloads != []
  {
    var rest := l.(payloads := l.payloads[1..], held := None);
    if |l.payloads[0]| <= l.held.value.payloadLen then rest.(received := l.received + [Frame(l.held.value, l.payloads[0])])
    else rest
  }

  function Changed(l: Link, e: Event): Link
    requires e.PostHeader? ==> (e.m.payload.Some? ==> e.m.header.payloadLen <= |e.m.payload.value|)
    requires e.PostPayload? ==> l.unsent.Some?
    requires e.TakeHeader? ==> l.headers != []
    requires e.TakePayload? ==> l.held.Some? && l.payloads != []
  {
    match e
    case PostHeader(k, m, capacity, ok) => if ok then Posted(l, m) else l
    case PostPayload(k, ok) =>
      if ok then l.(payloads := l.payloads + [l.unsent.value], unsent := None) else l.(unsent := None)
    case TakeHeader(k, buffered) => if buffered then Taken(l) else l.(headers := l.headers[1..])
    case TakePayload(k) => Joined(l)
  }

  function Do(y: Network, e: Event): Network
    requires Enabled(y, e)
  {
    y[e.k := Changed(y[e.k], e)]
  }

  /** An event that is not enabled does nothing. */
  function Apply(y: Network, e: Event): Network {
    if Enabled(y, e) then Do(y, e) else y
  }

  function Exec(y: Network, es: seq<Event>): Network {
    if es == [] then y else Apply(Exec(y, es[..|es| - 1]), es[|es| - 1])
  }

  // The streams a run of frames makes on the two tags

  function BodiesOf(fs: seq<Frame>): seq<Bytes> {
    if fs == [] then []
    else
      var front, f := BodiesOf(fs[..|fs| - 1]), fs[|fs| - 1];
      if f.header.payloadLen > 0 then front + [f.body] else front
  }

  lemma BodiesAppend(fs: seq<Frame>, f: Frame)
    ensures BodiesOf(fs + [f]) == if f.header.payloadLen > 0 then BodiesOf(fs) + [f.body] else BodiesOf(fs)
  {
    assert (fs + [f])[..|fs|] == fs;
  }

  /** The frame's body before the others, if it has one. */
  function Before(f: Frame, bodies: seq<Bytes>): seq<Bytes> {
    if f.header.payloadLen > 0 then [f.body] + bodies else bodies
  }

  lemma Regroup<T>(x: seq<T>, y: seq<T>, z: seq<T>)
    ensures x + (y + z) == (x + y) + z
  {}

  lemma BodiesConsAppend(f: Frame, mid: seq<Frame>, g: Frame)
    requires BodiesOf([f] + mid) == Before(f, BodiesOf(mid))
    ensures BodiesOf([f] + (mid + [g])) == Before(f, BodiesOf(mid + [g]))
  {
    Regroup([f], mid, [g]);
    BodiesAppend([f] + mid, g);
    BodiesAppend(mid, g);
    Regroup([f.body], BodiesOf(mid), [g.body]);
  }

  lemma {:induction false} BodiesCons(f: Frame, fs: seq<Frame>)
    ensures BodiesOf([f] + fs) == Before(f, BodiesOf(fs))
  {
    if fs == [] {
      assert [f] + fs == [] + [f];
      BodiesAppend([], f);
    } else {
      BodiesCons(f, fs[..|fs| - 1]);
      BodiesConsAppend(f, fs[..|fs| - 1], fs[|fs| - 1]);
      assert fs == fs[..|fs| - 1] + [fs[|fs| - 1]];
    }
  }

  lemma BodiesTail(fs: seq<Frame>)
    requires fs != []
    ensures BodiesOf(fs) == Before(fs[0], BodiesOf(fs[1..]))
  {
    BodiesCons(fs[0], fs[1..]);
    assert fs == [fs[0]] + fs[1..];
  }

  /** The held header, then the header queue, are the headers of fs. */
  ghost predicate HeaderStream(held: Option<Header>, headers: seq<Header>, fs: seq<Frame>) {
    if held.Some? then
      |fs| == |headers| + 1 && held.value == fs[0].header && forall i | 0 <= i < |headers| :: headers[i] == fs[i + 1].header
    else
      |fs| == |headers| && forall i | 0 <= i < |headers| :: headers[i] == fs[i].header
  }

  /** The payload queue, then the unsent payload, are the given bodies. */
  ghost predicate BodyStream(payloads: seq<Bytes>, unsent: Option<Bytes>, bodies: seq<Bytes>) {
    if unsent.Some? then bodies == payloads + [unsent.value] else bodies == payloads
  }

  // The invariant of one link

  ghost predicate Joins(sent: seq<Frame>, received: seq<Frame>, fs: seq<Frame>) {
    && |sent| == |received| + |fs|
    && (forall i | 0 <= i < |received| :: sent[i] == received[i])
    && (forall i | 0 <= i < |fs| :: sent[|received| + i] == fs[i])
  }

  ghost predicate WellMade(fs: seq<Frame>) {
    forall i | 0 <= i < |fs| :: HeaderValid(fs[i].header) && fs[i].header.payloadLen == |fs[i].body|
  }

  /** fs are the frames on their way. */
  ghost predicate OnTheWay(l: Link, fs: seq<Frame>) {
    && Joins(l.sent, l.received, fs) && WellMade(fs)
    && HeaderStream(l.held, l.headers, fs) && BodyStream(l.payloads, l.unsent, BodiesOf(fs))
    && (l.held.Some? ==> l.held.value.payloadLen > 0)
  }

  ghost predicate Framed(l: Link) {
    exists fs :: OnTheWay(l, fs)
  }

  lemma Unique(sent: seq<Frame>, received: seq<Frame>, fs: seq<Frame>, gs: seq<Frame>)
    requires Joins(sent, received, fs) && Joins(sent, received, gs)
    ensures fs == gs
  {
    forall i | 0 <= i < |fs| ensures fs[i] == gs[i] { assert sent[|received| + i] == fs[i]; }
  }

  // Each half of a send and of a receive, on one link

  lemma JoinsAppend(sent: seq<Frame>, received: seq<Frame>, fs: seq<Frame>, f: Frame)
    requires Joins(sent, received, fs)
    ensures Joins(sent + [f], received, fs + [f])
  {}

  lemma HeaderAppend(held: Option<Header>, headers: seq<Header>, fs: seq<Frame>, f: Frame)
    requires HeaderStream(held, headers, fs)
    ensures HeaderStream(held, headers + [f.header], fs + [f])
  {}

  lemma FramePosted(l: Link, f: Frame, fs: seq<Frame>)
    requires OnTheWay(l, fs) && l.unsent == None && HeaderValid(f.header) && f.header.payloadLen == |f.body|
    ensures Framed(l.(headers := l.headers + [f.header], sent := l.sent + [f],
                      unsent := if f.header.payloadLen > 0 then Some(f.body) else None))
  {
    BodiesAppend(fs, f);
    JoinsAppend(l.sent, l.received, fs, f);
    HeaderAppend(l.held, l.headers, fs, f);
    var l' := l.(headers := l.headers + [f.header], sent := l.sent + [f],
                 unsent := if f.header.payloadLen > 0 then Some(f.body) else None);
    assert OnTheWay(l', fs + [f]);
  }

  lemma PostedFramed(l: Link, m: Message, fs: seq<Frame>)
    requires OnTheWay(l, fs) && l.unsent == None && HeaderValid(m.header)
    requires m.payload.Some? ==> m.header.payloadLen <= |m.payload.value|
    requires m.header.payloadLen == 0 || m.payload.Some?
    ensures Framed(Posted(l, m))
  {
    FramePosted(l, Frame(m.header, if m.header.payloadLen > 0 then m.payload.value[..m.header.payloadLen] else []), fs);
  }

  lemma PayloadPosted(l: Link, fs: seq<Frame>)
    requires OnTheWay(l, fs) && l.unsent.Some?
    ensures Framed(l.(payloads := l.payloads + [l.unsent.value], unsent := None))
  {
    assert OnTheWay(l.(payloads := l.payloads + [l.unsent.value], unsent := None), fs);
  }

  /** The oldest frame on its way, received. */
  lemma OneReceived(sent: seq<Frame>, received: seq<Frame>, fs: seq<Frame>)
    requires Joins(sent, received, fs) && fs != []
    ensures Joins(sent, received + [fs[0]], fs[1..])
  {
    forall i | 0 <= i < |fs| - 1 ensures sent[|received| + 1 + i] == fs[1..][i] {
      assert sent[|received| + (i + 1)] == fs[i + 1];
    }
  }

  lemma HeaderTaken(l: Link, fs: seq<Frame>)
    requires OnTheWay(l, fs) && l.held == None && l.headers != []
    ensures Framed(Taken(l))
  {
    assert l.headers[0] == fs[0].header;
    if fs[0].header.payloadLen > 0 {
      assert OnTheWay(Taken(l), fs);
    } else {
      assert fs[0] == Frame(l.headers[0], []);
      BodiesTail(fs);
      OneReceived(l.sent, l.received, fs);
      assert OnTheWay(Taken(l), fs[1..]);
    }
  }

  lemma OldestPayload(payloads: seq<Bytes>, unsent: Option<Bytes>, body: Bytes, rest: seq<Bytes>)
    requires BodyStream(payloads, unsent, [body] + rest) && payloads != []
    ensures payloads[0] == body && BodyStream(payloads[1..], unsent, rest)
  {
    var all := [body] + rest;
    assert all[0] == body && all[1..] == rest;
    if unsent.Some? { assert (payloads + [unsent.value])[1..] == payloads[1..] + [unsent.value]; }
  }

  lemma PayloadTaken(l: Link, fs: seq<Frame>)
    requires OnTheWay(l, fs) && l.held.Some? && l.payloads != []
    ensures Framed(Joined(l))
  {
    BodiesTail(fs);
    OldestPayload(l.payloads, l.unsent, fs[0].body, BodiesOf(fs[1..]));
    OneReceived(l.sent, l.received, fs);
    assert fs[0] == Frame(l.held.value, l.payloads[0]);
    assert OnTheWay(Joined(l), fs[1..]);
  }

  // Exactly when the framing survives

  /** A header goes out or is taken without the payload that belongs to it. */
  predicate Faulty(e: Event) {
    match e
    case PostHeader(k, m, capacity, ok) => ok && m.header.payloadLen > 0 && m.payload.None?
    case PostPayload(k, ok) => !ok
    case TakeHeader(k, buffered) => !buffered
    case TakePayload(k) => false
  }

  lemma FaultBreaks(y: Network, e: Event)
    requires Enabled(y, e) && Faulty(e) && Framed(y[e.k])
    ensures !Framed(Do(y, e)[e.k])
  {
    var l, l' := y[e.k], Do(y, e)[e.k];
    var fs: seq<Frame> :| OnTheWay(l, fs);
    forall gs ensures !OnTheWay(l', gs) {
      if Joins(l'.sent, l'.received, gs) {
        match e
        case PostHeader(k, m, capacity, ok) =>
          assert l'.sent[|l'.sent| - 1] == Frame(m.header, []) == gs[|gs| - 1];
        case PostPayload(k, ok) => Unique(l.sent, l.received, fs, gs);
        case TakeHeader(k, buffered) => Unique(l.sent, l.received, fs, gs);
        case TakePayload(k) =>
      }
    }
  }

  lemma CleanKeeps(y: Network, e: Event)
    requires Enabled(y, e) && !Faulty(e) && Framed(y[e.k])
    ensures Framed(Do(y, e)[e.k])
  {
    var l := y[e.k];
    var fs: seq<Frame> :| OnTheWay(l, fs);
    match e
    case PostHeader(k, m, capacity, ok) => if ok { PostedFramed(l, m, fs); }
    case PostPayload(k, ok) => PayloadPosted(l, fs);
    case TakeHeader(k, buffered) => HeaderTaken(l, fs);
    case TakePayload(k) => PayloadTaken(l, fs);
  }

  /** A step keeps headers and payloads paired on its link if and only if it is not faulty, and leaves the others alone. */
  lemma StepIff(y: Network, e: Event)
    requires Enabled(y, e) && Framed(y[e.k])
    ensures |Do(y, e)| == |y| && (Framed(Do(y, e)[e.k]) <==> !Faulty(e))
    ensures forall k | 0 <= k < |y| && k != e.k :: Do(y, e)[k] == y[k]
  {
    if Faulty(e) { FaultBreaks(y, e); } else { CleanKeeps(y, e); }
  }

  // Whole runs

  /** No event of the run is a fault on link k. */
  predicate Sound(es: seq<Event>, k: nat) {
    forall i | 0 <= i < |es| :: es[i].k == k ==> !Faulty(es[i])
  }

  lemma {:induction false} ExecFramed(y: Network, es: seq<Event>, k: nat)
    requires Initial(y) && k < |y| && Sound(es, k)
    ensures |Exec(y, es)| == |y| && Framed(Exec(y, es)[k])
  {
    if es == [] {
      assert OnTheWay(y[k], []);
    } else {
      var mid, e := Exec(y, es[..|es| - 1]), es[|es| - 1];
      ExecFramed(y, es[..|es| - 1], k);
      if Enabled(mid, e) && e.k == k { StepIff(mid, e); }
    }
  }

  /** Over every interleaving without faults on the link itself, what a rank received from another is a prefix of what
      that one sent, each header with its own payload. */
  lemma ReceivedIsPrefixOfSent(y: Network, es: seq<Event>, k: nat)
    requires Initial(y) && k < |y| && Sound(es, k)
    ensures k < |Exec(y, es)| && Exec(y, es)[k].received <= Exec(y, es)[k].sent
  {
    ExecFramed(y, es, k);
  }

  /** Every header on its way passes the receiver's validation, and the next payload has the announced length. */
  lemma DeliveryIsValid(y: Network, es: seq<Event>, k: nat)
    requires Initial(y) && k < |y| && Sound(es, k)
    ensures k < |Exec(y, es)|
    ensures var l := Exec(y, es)[k];
      && (forall i | 0 <= i < |l.headers| :: l.headers[i].magic == 0xDA7A1E00 && l.headers[i].version == 1)
      && (l.held.Some? ==> l.held.value.magic == 0xDA7A1E00 && l.held.value.version == 1)
      && (l.held.Some? && l.payloads != [] ==> |l.payloads[0]| == l.held.value.payloadLen)
  {
    ExecFramed(y, es, k);
    var l := Exec(y, es)[k];
    var fs: seq<Frame> :| OnTheWay(l, fs);
    if l.held.Some? {
      BodiesTail(fs);
      if l.payloads != [] { OldestPayload(l.payloads, l.unsent, fs[0].body, BodiesOf(fs[1..])); }
    }
  }

  // What the histories are

  /** The frame of a message: its header with the first payloadLen bytes of its payload, none if it has no payload. */
  function FrameOf(m: Message): Frame
    requires m.payload.Some? ==> m.header.payloadLen <= |m.payload.value|
  {
    Frame(m.header, if m.payload.Some? then m.payload.value[..m.header.payloadLen] else [])
  }

  /** The frames of the messages whose headers went out over link k, in order. */
  ghost function Outgoing(y: Network, es: seq<Event>, k: nat): seq<Frame> {
    if es == [] then []
    else
      var front, e := es[..|es| - 1], es[|es| - 1];
      if e.PostHeader? && e.k == k && e.ok && Enabled(Exec(y, front), e) then Outgoing(y, front, k) + [FrameOf(e.m)]
      else Outgoing(y, front, k)
  }

  lemma SentAfter(y: Network, e: Event, k: nat)
    requires k < |y|
    ensures k < |Apply(y, e)|
    ensures Apply(y, e)[k].sent
         == if e.PostHeader? && e.k == k && e.ok && Enabled(y, e) then y[k].sent + [FrameOf(e.m)] else y[k].sent
  {}

  /** On every run a link's history of sent frames is exactly that list. */
  lemma {:induction false} SentIsOutgoing(y: Network, es: seq<Event>, k: nat)
    requires Initial(y) && k < |y|
    ensures k < |Exec(y, es)| && Exec(y, es)[k].sent == Outgoing(y, es, k)
  {
    if es != [] {
      SentIsOutgoing(y, es[..|es| - 1], k);
      SentAfter(Exec(y, es[..|es| - 1]), es[|es| - 1], k);
    }
  }

  /** Once nothing is left on a link without faults, everything that went out was received. */
  lemma DrainedIsComplete(y: Network, es: seq<Event>, k: nat)
    requires Initial(y) && k < |y| && Sound(es, k)
    ensures k < |Exec(y, es)|
    ensures var l := Exec(y, es)[k]; l.headers == [] && l.held == None ==> l.received == Outgoing(y, es, k)
  {
    ExecFramed(y, es, k);
    SentIsOutgoing(y, es, k);
    var l := Exec(y, es)[k];
    var fs: seq<Frame> :| OnTheWay(l, fs);
    if fs == [] { assert l.received + fs == l.received; }
  }

  /** On a network of one link the guards are about that link alone. */
  lemma OneLink(l: Link, e: Event)
    requires e.k == 0
    requires e.PostHeader? ==> l.unsent == None && Enabled([l.(unsent := None)], e)
    requires e.PostPayload? ==> l.unsent.Some?
    requires e.TakeHeader? ==> l.held == None && l.headers != []
    requires e.TakePayload? ==> l.held.Some? && l.payloads != []
    ensures Enabled([l], e) && Apply([l], e) == [Changed(l, e)]
  {
    assert [l][0] == l;
    assert e.PostHeader? ==> l.(unsent := None) == l;
  }

  lemma ExecAppend(y: Network, es: seq<Event>, e: Event)
    ensures Exec(y, es + [e]) == Apply(Exec(y, es), e)
  {
    assert (es + [e])[..|es|] == es;
  }

  /** A header sent without its payload takes the payload of the next message: it is delivered with it, or, when that
      payload is longer than announced, both are lost and the next header has no payload. */
  lemma OrphanTakesTheNextPayload(l: Link, h: Header, capacity: nat, m: Message)
    requires Initial([l]) && Validate(h, capacity) && h.payloadLen > 0
    requires m.payload.Some? && Validate(m.header, |m.payload.value|) && m.header.payloadLen > 0
    ensures var body := m.payload.value[..m.header.payloadLen];
      var es := [] + [PostHeader(0, Message(h, None), capacity, true)] + [PostHeader(0, m, |m.payload.value|, true)]
                   + [PostPayload(0, true)] + [TakeHeader(0, true)] + [TakePayload(0)];
      && |Exec([l], es)| == 1
      && var l' := Exec([l], es)[0];
        && l'.sent == [Frame(h, []), Frame(m.header, body)] && l'.headers == [m.header] && l'.payloads == []
        && l'.received == (if |body| <= h.payloadLen then [Frame(h, body)] else [])
        && (l'.received <= l'.sent <==> |body| > h.payloadLen)
  {
    assert [l][0] == l;
    var body := m.payload.value[..m.header.payloadLen];
    var e1, e2 := PostHeader(0, Message(h, None), capacity, true), PostHeader(0, m, |m.payload.value|, true);
    var l1 := Changed(l, e1);
    OneLink(l, e1);
    ExecAppend([l], [], e1);
    var l2 := Changed(l1, e2);
    OneLink(l1, e2);
    ExecAppend([l], [] + [e1], e2);
    var l3 := Changed(l2, PostPayload(0, true));
    OneLink(l2, PostPayload(0, true));
    ExecAppend([l], [] + [e1] + [e2], PostPayload(0, true));
    assert l3.headers == [h, m.header] && l3.payloads == [body] && l3.sent == [Frame(h, []), Frame(m.header, body)];
    var l4 := Changed(l3, TakeHeader(0, true));
    OneLink(l3, TakeHeader(0, true));
    ExecAppend([l], [] + [e1] + [e2] + [PostPayload(0, true)], TakeHeader(0, true));
    var l5 := Changed(l4, TakePayload(0));
    OneLink(l4, TakePayload(0));
    ExecAppend([l], [] + [e1] + [e2] + [PostPayload(0, true)] + [TakeHeader(0, true)], TakePayload(0));
    assert l5.sent[0] != Frame(h, body);
  }

  // Every list of frames can be delivered

  predicate Sendable(f: Frame) {
    f.header.magic == 0xDA7A1E00 && f.header.version == 1 && f.header.payloadLen == |f.body|
  }

  /** The run es and then the frame, sent and received. */
  function Relayed(es: seq<Event>, f: Frame): seq<Event> {
    if f.body == [] then es + [PostHeader(0, Message(f.header, None), 0, true)] + [TakeHeader(0, true)]
    else es + [PostHeader(0, Message(f.header, Some(f.body)), |f.body|, true)] + [PostPayload(0, true)]
            + [TakeHeader(0, true)] + [TakePayload(0)]
  }

  function Script(fs: seq<Frame>): seq<Event> {
    if fs == [] then [] else Relayed(Script(fs[..|fs| - 1]), fs[|fs| - 1])
  }

  predicate Quiet(l: Link) {
    l.headers == [] && l.payloads == [] && l.unsent == None && l.held == None
  }

  lemma EmptyRelayed(l0: Link, es: seq<Event>, l: Link, f: Frame)
    requires Exec([l0], es) == [l] && Quiet(l) && Sendable(f) && f.body == []
    ensures Exec([l0], Relayed(es, f)) == [l.(sent := l.sent + [f], received := l.received + [f])]
  {
    var e := PostHeader(0, Message(f.header, None), 0, true);
    ExecAppend([l0], es, e);
    OneLink(l, e);
    ExecAppend([l0], es + [e], TakeHeader(0, true));
    OneLink(Changed(l, e), TakeHeader(0, true));
    assert (l.headers + [f.header])[1..] == [] && Frame(f.header, []) == f;
  }

  lemma FullRelayed(l0: Link, es: seq<Event>, l: Link, f: Frame)
    requires Exec([l0], es) == [l] && Quiet(l) && Sendable(f) && f.body != []
    ensures Exec([l0], Relayed(es, f)) == [l.(sent := l.sent + [f], received := l.received + [f])]
  {
    var e := PostHeader(0, Message(f.header, Some(f.body)), |f.body|, true);
    ExecAppend([l0], es, e);
    OneLink(l, e);
    assert f.body[..|f.body|] == f.body;
    var l1 := Changed(l, e);
    ExecAppend([l0], es + [e], PostPayload(0, true));
    OneLink(l1, PostPayload(0, true));
    var l2 := Changed(l1, PostPayload(0, true));
    ExecAppend([l0], es + [e] + [PostPayload(0, true)], TakeHeader(0, true));
    OneLink(l2, TakeHeader(0, true));
    var l3 := Changed(l2, TakeHeader(0, true));
    ExecAppend([l0], es + [e] + [PostPayload(0, true)] + [TakeHeader(0, true)], TakePayload(0));
    OneLink(l3, TakePayload(0));
    assert (l.headers + [f.header])[1..] == [] && (l.payloads + [f.body])[1..] == [] && Frame(f.header, f.body) == f;
  }

  /** For every list of frames, of any lengths, there is a run that delivers exactly that list. */
  lemma {:induction false} EveryListDeliverable(l: Link, fs: seq<Frame>)
    requires Initial([l]) && forall i | 0 <= i < |fs| :: Sendable(fs[i])
    ensures Exec([l], Script(fs)) == [l.(sent := fs, received := fs)]
  {
    assert [l][0] == l;
    if fs != [] {
      var front, f := fs[..|fs| - 1], fs[|fs| - 1];
      EveryListDeliverable(l, front);
      assert front + [f] == fs;
      var l' := l.(sent := front, received := front);
      if f.body == [] { EmptyRelayed(l, Script(front), l', f); } else { FullRelayed(l, Script(front), l', f); }
    }
  }
}
