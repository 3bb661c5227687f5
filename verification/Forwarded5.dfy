/**
 * The MQTT 5.0 parser on a PUBLISH as any peer may write it: properties of section 3.3.2.3 in any
 * order and number, among them the subscription identifier that a broker adds and a reason
 * string, which the builder of the client never writes. Here they are given byte by byte.
 */
module Forwarded5 {
  import opened Bytes
  import opened VarInt
  import opened Packet
  import opened Properties
  import opened RoundTrip5

  datatype Field5 =
    | FormatIndicator(flag: byte)
    | Expiry(seconds: nat)
    | ContentType(text: seq<byte>)
    | ResponseTopic(topic: seq<byte>)
    | Correlation(data: seq<byte>)
    | SubscriptionId(n: nat)
    | Reason(text: seq<byte>)
    | Alias(n: nat)
    | UserPair(key: seq<byte>, value: seq<byte>)

  /** A value that its field can hold. */
  predicate Fits(p: Field5) {
    match p
    case FormatIndicator(v) => true
    case Expiry(n) => n < 0x1_0000_0000
    case ContentType(s) => |s| < 65536
    case ResponseTopic(s) => |s| < 65536
    case Correlation(s) => |s| < 65536
    case SubscriptionId(n) => n < LIMIT
    case Reason(s) => |s| < 65536
    case Alias(n) => n < 65536
    case UserPair(k, v) => |k| < 65536 && |v| < 65536
  }

  /** A property of section 3.3.2.3. */
  type Prop = p: Field5 | Fits(p) witness Alias(1)

  function Prefixed(s: seq<byte>): seq<byte>
    requires |s| < 65536
  {
    [|s| / 256, |s| % 256] + s
  }

  /** A property on the wire. */
  function Wire(p: Prop): seq<byte> {
    match p
    case FormatIndicator(v) => [0x01, v]
    case Expiry(n) => [0x02, n / 0x100_0000, n / 0x1_0000 % 256, n / 256 % 256, n % 256]
    case ContentType(s) => [0x03] + Prefixed(s)
    case ResponseTopic(s) => [0x08] + Prefixed(s)
    case Correlation(s) => [0x09] + Prefixed(s)
    case SubscriptionId(n) => [0x0B] + Encode(n)
    case Reason(s) => [0x1F] + Prefixed(s)
    case Alias(n) => [0x23, n / 256, n % 256]
    case UserPair(k, v) => [0x26] + Prefixed(k) + Prefixed(v)
  }

  /** What the application is told; the subscription identifier is kept in 16 bits, and a reason
      string is passed over. */
  function Told(r: Received, p: Prop): Received {
    match p
    case FormatIndicator(v) => r.(formatIndicator := v != 0)
    case Expiry(n) => r.(expiry := n)
    case ContentType(s) => r.(contentType := Some(s))
    case ResponseTopic(s) => r.(responseTopic := Some(s))
    case Correlation(s) => r.(correlation := Some(s))
    case SubscriptionId(n) => r.(subscribeId := n % 65536)
    case Reason(s) => r
    case Alias(n) => r.(alias := n)
    case UserPair(k, v) => r.(users := r.users + [(k, v)])
  }

  /** Within the cap of 16 KiB, where there is one. */
  predicate Accepted(p: Prop) {
    match p
    case ResponseTopic(s) => |s| <= 16384
    case Reason(s) => |s| <= 16384
    case UserPair(k, v) => |k| <= 16384 && |v| <= 16384
    case _ => true
  }

  // ----- one property -----

  lemma PrefixedIsStr(s: seq<byte>)
    requires |s| < 65536
    ensures Prefixed(s) == Str(s)
  {
    assert U16(|s|) == [|s| / 256, |s| % 256];
  }

  lemma AliasWire(n: nat)
    requires n < 65536
    ensures Field(n, 2) == [n / 256, n % 256]
  {
    FieldTwo(n);
    assert U16(n) == [n / 256, n % 256];
  }

  lemma ExpiryWire(n: nat)
    requires n < 0x1_0000_0000
    ensures Field(n, 4) == [n / 0x100_0000, n / 0x1_0000 % 256, n / 256 % 256, n % 256]
  {
    FieldTwo(n);
    assert Pow256(2) == 256 * Pow256(1) && Pow256(1) == 256 * Pow256(0) && Pow256(3) == 256 * Pow256(2);
    assert Field(n, 4) == [n / 0x100_0000 % 256] + Field(n, 3);
    assert Field(n, 3) == [n / 0x1_0000 % 256] + Field(n, 2);
  }

  /** One turn of the loop that meets a subscription identifier: it may have up to four bytes. */
  lemma TurnSubscription(m: seq<byte>, at: nat, n: nat, off: nat, r: Received, k: nat)
    requires k < LIMIT && Within(m, at, n, off, [0x0B] + Encode(k))
    ensures off < n
    ensures Read(m, at, n, off, r) == Done(Cursor(off + 1 + |Encode(k)|, r.(subscribeId := k % 65536)))
  {
    WithinOptional(m, at, n, off, 0x0B, Encode(k));
    var pos, s := at + off + 1, m[..at + n];
    assert s[pos..pos + |Encode(k)|] == m[pos..pos + |Encode(k)|];
    AtVarLen(s, pos, k);
    assert s[pos..] == m[pos..at + n];
  }

  /** ... or a reason string. */
  lemma TurnReason(m: seq<byte>, at: nat, n: nat, off: nat, r: Received, s: seq<byte>)
    requires |s| < 65536 && Within(m, at, n, off, [0x1F] + Prefixed(s))
    ensures off < n
    ensures Read(m, at, n, off, r) == if |s| <= 16384 then Done(Cursor(off + 3 + |s|, r)) else Rejected
  {
    PrefixedIsStr(s);
    WithinOptional(m, at, n, off, 0x1F, Str(s));
    CappedStr(m, at, n, off + 1, s);
  }

  lemma TurnFormat(m: seq<byte>, at: nat, n: nat, off: nat, r: Received, v: byte)
    requires Within(m, at, n, off, [0x01, v])
    ensures off < n && Read(m, at, n, off, r) == Done(Cursor(off + 2, r.(formatIndicator := v != 0)))
  {
    assert [0x01, v] == [0x01] + [v];
    WithinOptional(m, at, n, off, 0x01, [v]);
    AtByte(m, at + off + 1, v);
  }

  // The same for the loop from there on, property by property.

  lemma LoopFormat(w: Cursor -> Parse<Cursor>, m: seq<byte>, at: nat, n: nat, off: nat, r: Received, v: byte)
    requires IsLoop(w, m, at, n) && Within(m, at, n, off, [0x01, v])
    ensures w(Cursor(off, r)) == w(Cursor(off + 2, r.(formatIndicator := v != 0)))
  {
    TurnFormat(m, at, n, off, r, v);
    Turn(w, m, at, n, off, r, Done(Cursor(off + 2, r.(formatIndicator := v != 0))));
  }

  lemma LoopExpiry(w: Cursor -> Parse<Cursor>, m: seq<byte>, at: nat, n: nat, off: nat, r: Received, k: nat)
    requires IsLoop(w, m, at, n) && k < 0x1_0000_0000 && Within(m, at, n, off, [0x02] + Field(k, 4))
    ensures w(Cursor(off, r)) == w(Cursor(off + 5, r.(expiry := k)))
  {
    ReadExpiry(m, at, n, off, r, k);
    Turn(w, m, at, n, off, r, Done(Cursor(off + 5, r.(expiry := k))));
  }

  lemma LoopAlias(w: Cursor -> Parse<Cursor>, m: seq<byte>, at: nat, n: nat, off: nat, r: Received, k: nat)
    requires IsLoop(w, m, at, n) && k < 65536 && Within(m, at, n, off, [0x23] + Field(k, 2))
    ensures w(Cursor(off, r)) == w(Cursor(off + 3, r.(alias := k)))
  {
    ReadAlias(m, at, n, off, r, k);
    Turn(w, m, at, n, off, r, Done(Cursor(off + 3, r.(alias := k))));
  }

  lemma LoopSubscription(w: Cursor -> Parse<Cursor>, m: seq<byte>, at: nat, n: nat, off: nat, r: Received, k: nat)
    requires IsLoop(w, m, at, n) && k < LIMIT && Within(m, at, n, off, [0x0B] + Encode(k))
    ensures w(Cursor(off, r)) == w(Cursor(off + 1 + |Encode(k)|, r.(subscribeId := k % 65536)))
  {
    TurnSubscription(m, at, n, off, r, k);
    Turn(w, m, at, n, off, r, Done(Cursor(off + 1 + |Encode(k)|, r.(subscribeId := k % 65536))));
  }

  lemma LoopContent(w: Cursor -> Parse<Cursor>, m: seq<byte>, at: nat, n: nat, off: nat, r: Received, s: seq<byte>)
    requires IsLoop(w, m, at, n) && Within(m, at, n, off, [0x03] + Str(s))
    ensures w(Cursor(off, r)) == w(Cursor(off + 3 + |s|, r.(contentType := Some(s))))
  {
    ReadContentType(m, at, n, off, r, s);
    Turn(w, m, at, n, off, r, Done(Cursor(off + 3 + |s|, r.(contentType := Some(s)))));
  }

  lemma LoopCorrelation(w: Cursor -> Parse<Cursor>, m: seq<byte>, at: nat, n: nat, off: nat, r: Received, s: seq<byte>)
    requires IsLoop(w, m, at, n) && Within(m, at, n, off, [0x09] + Str(s))
    ensures w(Cursor(off, r)) == w(Cursor(off + 3 + |s|, r.(correlation := Some(s))))
  {
    ReadCorrelation(m, at, n, off, r, s);
    Turn(w, m, at, n, off, r, Done(Cursor(off + 3 + |s|, r.(correlation := Some(s)))));
  }

  lemma LoopResponse(w: Cursor -> Parse<Cursor>, m: seq<byte>, at: nat, n: nat, off: nat, r: Received, s: seq<byte>)
    requires IsLoop(w, m, at, n) && Within(m, at, n, off, [0x08] + Str(s))
    ensures w(Cursor(off, r)) ==
            if |s| <= 16384 then w(Cursor(off + 3 + |s|, r.(responseTopic := Some(s)))) else Rejected
  {
    ReadResponse(m, at, n, off, r, s);
    Turn(w, m, at, n, off, r,
         if |s| <= 16384 then Done(Cursor(off + 3 + |s|, r.(responseTopic := Some(s)))) else Rejected);
  }

  lemma LoopReason(w: Cursor -> Parse<Cursor>, m: seq<byte>, at: nat, n: nat, off: nat, r: Received, s: seq<byte>)
    requires IsLoop(w, m, at, n) && |s| < 65536 && Within(m, at, n, off, [0x1F] + Prefixed(s))
    ensures w(Cursor(off, r)) == if |s| <= 16384 then w(Cursor(off + 3 + |s|, r)) else Rejected
  {
    TurnReason(m, at, n, off, r, s);
    Turn(w, m, at, n, off, r, if |s| <= 16384 then Done(Cursor(off + 3 + |s|, r)) else Rejected);
  }

  lemma LoopPair(w: Cursor -> Parse<Cursor>, m: seq<byte>, at: nat, n: nat, off: nat, r: Received,
                 k: seq<byte>, v: seq<byte>)
    requires IsLoop(w, m, at, n) && Within(m, at, n, off, [0x26] + Str(k) + Str(v))
    ensures w(Cursor(off, r)) ==
            if |k| <= 16384 && |v| <= 16384
            then w(Cursor(off + 5 + |k| + |v|, r.(users := r.users + [(k, v)]))) else Rejected
  {
    ReadUser(m, at, n, off, r, (k, v));
    Turn(w, m, at, n, off, r,
         if |k| <= 16384 && |v| <= 16384
         then Done(Cursor(off + 5 + |k| + |v|, r.(users := r.users + [(k, v)]))) else Rejected);
  }

  /** One property, whichever it is. */
  lemma LoopTurn(w: Cursor -> Parse<Cursor>, m: seq<byte>, at: nat, n: nat, off: nat, r: Received, p: Prop)
    requires IsLoop(w, m, at, n) && Within(m, at, n, off, Wire(p))
    ensures w(Cursor(off, r)) == if Accepted(p) then w(Cursor(off + |Wire(p)|, Told(r, p))) else Rejected
  {
    match p
    case FormatIndicator(v) => LoopFormat(w, m, at, n, off, r, v);
    case Expiry(k) => ExpiryWire(k); LoopExpiry(w, m, at, n, off, r, k);
    case ContentType(s) => PrefixedIsStr(s); LoopContent(w, m, at, n, off, r, s);
    case ResponseTopic(s) => PrefixedIsStr(s); LoopResponse(w, m, at, n, off, r, s);
    case Correlation(s) => PrefixedIsStr(s); LoopCorrelation(w, m, at, n, off, r, s);
    case SubscriptionId(k) => LoopSubscription(w, m, at, n, off, r, k);
    case Reason(s) => LoopReason(w, m, at, n, off, r, s);
    case Alias(k) => AliasWire(k); LoopAlias(w, m, at, n, off, r, k);
    case UserPair(k, v) => PrefixedIsStr(k); PrefixedIsStr(v); LoopPair(w, m, at, n, off, r, k, v);
  }

  /** Anything else stops the parser. */
  lemma OthersRejected(m: seq<byte>, at: nat, n: nat, off: nat, r: Received)
    requires at + n <= |m| && off < n < 65536
    requires m[at + off] !in {0x01, 0x02, 0x03, 0x08, 0x09, 0x0B, 0x1F, 0x23, 0x26}
    ensures Read(m, at, n, off, r) == Rejected
  {
  }

  // ----- a section -----

  function Cat(f: Prop -> seq<byte>, ps: seq<Prop>): seq<byte> {
    if ps == [] then [] else f(ps[0]) + Cat(f, ps[1..])
  }

  function Fold(f: (Received, Prop) -> Received, r: Received, ps: seq<Prop>): Received
    decreases |ps|
  {
    if ps == [] then r else Fold(f, f(r, ps[0]), ps[1..])
  }

  predicate Every(f: Prop -> bool, ps: seq<Prop>) { ps == [] || (f(ps[0]) && Every(f, ps[1..])) }

  function WireAll(ps: seq<Prop>): seq<byte> { Cat(Wire, ps) }

  /** One after another. */
  function ToldAll(r: Received, ps: seq<Prop>): Received { Fold(Told, r, ps) }

  predicate AllAccepted(ps: seq<Prop>) { Every(Accepted, ps) }

  /** Where this property lies, `w` reads it like this. */
  ghost predicate ReadsOne(w: Cursor -> Parse<Cursor>, m: seq<byte>, at: nat, n: nat, wire: Prop -> seq<byte>,
                           ok: Prop -> bool, told: (Received, Prop) -> Received, off: nat, r: Received, p: Prop)
  {
    Within(m, at, n, off, wire(p)) ==>
      w(Cursor(off, r)) == if ok(p) then w(Cursor(off + |wire(p)|, told(r, p))) else Rejected
  }

  ghost predicate ReadsEach(w: Cursor -> Parse<Cursor>, m: seq<byte>, at: nat, n: nat, wire: Prop -> seq<byte>,
                            ok: Prop -> bool, told: (Received, Prop) -> Received)
  {
    forall off: nat, r: Received, p: Prop :: ReadsOne(w, m, at, n, wire, ok, told, off, r, p)
  }

  lemma {:induction false} ReadsThemAll(w: Cursor -> Parse<Cursor>, m: seq<byte>, at: nat, n: nat, off: nat,
                                        r: Received, wire: Prop -> seq<byte>, ok: Prop -> bool,
                                        told: (Received, Prop) -> Received, ps: seq<Prop>)
    requires ReadsEach(w, m, at, n, wire, ok, told) && Within(m, at, n, off, Cat(wire, ps))
    ensures w(Cursor(off, r)) ==
            if Every(ok, ps) then w(Cursor(off + |Cat(wire, ps)|, Fold(told, r, ps))) else Rejected
    decreases |ps|
  {
    if ps != [] {
      WithinConcat(m, at, n, off, wire(ps[0]), Cat(wire, ps[1..]));
      assert ReadsOne(w, m, at, n, wire, ok, told, off, r, ps[0]);
      var next := told(r, ps[0]);
      if ok(ps[0]) { ReadsThemAll(w, m, at, n, off + |wire(ps[0])|, next, wire, ok, told, ps[1..]); }
    }
  }

  lemma LoopOverAll(w: Cursor -> Parse<Cursor>, m: seq<byte>, at: nat, n: nat, r: Received, ps: seq<Prop>)
    requires IsLoop(w, m, at, n) && Within(m, at, n, 0, WireAll(ps))
    ensures w(Cursor(0, r)) == if AllAccepted(ps) then w(Cursor(|WireAll(ps)|, ToldAll(r, ps))) else Rejected
  {
    forall off: nat, r: Received, p: Prop ensures ReadsOne(w, m, at, n, Wire, Accepted, Told, off, r, p) {
      if Within(m, at, n, off, Wire(p)) { LoopTurn(w, m, at, n, off, r, p); }
    }
    ReadsThemAll(w, m, at, n, 0, r, Wire, Accepted, Told, ps);
  }

  /** The property loop over any properties tells all of them, or rejects one over the cap. */
  lemma WalkAll(m: seq<byte>, at: nat, ps: seq<Prop>)
    requires Within(m, at, |WireAll(ps)|, 0, WireAll(ps))
    ensures Walk(m, at, |WireAll(ps)|, 0, NOTHING) ==
            if AllAccepted(ps) then Done(Cursor(|WireAll(ps)|, ToldAll(NOTHING, ps))) else Rejected
  {
    var n := |WireAll(ps)|;
    var w := (c: Cursor) => if c.off < 65536 && at + n <= |m| && n < 65536 then Walk(m, at, n, c.off, c.r) else Overrun;
    LoopOverAll(w, m, at, n, NOTHING, ps);
    LoopEnd(w, m, at, n, ToldAll(NOTHING, ps));
  }

  /**
   * Any PUBLISH with these properties, in this order, is received as its topic, what the
   * properties say, and its payload, exactly if the section is shorter than 65536 bytes and
   * the strings with a cap are within it.
   */
  lemma AnyPublishReceived(header: byte, topic: seq<byte>, id: seq<byte>, ps: seq<Prop>, payload: seq<byte>)
    requires |topic| < 65536 && |id| == (if header / 2 % 4 > 0 then 2 else 0)
    requires |Prefixed(topic) + id + Encode(|WireAll(ps)|) + WireAll(ps) + payload| < LIMIT
    ensures var s := WireAll(ps);
      Decode5(Whole(header, Prefixed(topic) + id + Encode(|s|) + s + payload))
      == Done(Publish5(topic, ToldAll(NOTHING, ps), payload))
      <==> |s| < 65536 && AllAccepted(ps)
  {
    PrefixedIsStr(topic);
    var m, at := BodyOpens(header, topic, id, WireAll(ps), payload);
    if |WireAll(ps)| < 65536 { WalkAll(m, at, ps); }
    OpenedRoundTrip(m, topic, at, WireAll(ps), payload, ToldAll(NOTHING, ps), AllAccepted(ps));
  }

  // ----- the client's own section is one of these -----

  /** The values and strings have sizes that their fields can hold. */
  predicate Writable(p: Wanted) {
    && Sized(p) && |Content(p.responseTopic)| < 65536 && |Content(p.correlation)| < 65536
    && |Content(p.contentType)| < 65536 && AllPairs(p.users)
  }

  predicate AllPairs(us: seq<(seq<byte>, seq<byte>)>) {
    us == [] || (|us[0].0| < 65536 && |us[0].1| < 65536 && AllPairs(us[1..]))
  }

  function Pairs(us: seq<(seq<byte>, seq<byte>)>): seq<Prop>
    requires AllPairs(us)
  {
    if us == [] then [] else [UserPair(us[0].0, us[0].1)] + Pairs(us[1..])
  }

  function If(there: bool, p: Prop): seq<Prop> { if there then [p] else [] }

  function SentNumbers(p: Wanted): seq<Prop>
    requires Sized(p)
  {
    If(p.formatIndicator, FormatIndicator(1)) + If(p.expiry != 0, Expiry(p.expiry)) + If(p.alias != 0, Alias(p.alias))
  }

  function SentStrings(p: Wanted): seq<Prop>
    requires Writable(p)
  {
    If(p.responseTopic.Some?, ResponseTopic(Content(p.responseTopic)))
    + If(Given(p.correlation), Correlation(Content(p.correlation)))
  }

  function SentType(p: Wanted): seq<Prop>
    requires Writable(p)
  {
    If(p.contentType.Some?, ContentType(Content(p.contentType)))
  }

  /** The properties that `mqtt5_msg_publish` writes, in its order. */
  function Sent(p: Wanted): seq<Prop>
    requires Writable(p)
  {
    SentNumbers(p) + SentStrings(p) + Pairs(p.users) + SentType(p)
  }

  lemma {:induction false} CatJoined(f: Prop -> seq<byte>, a: seq<Prop>, b: seq<Prop>)
    ensures Cat(f, a + b) == Cat(f, a) + Cat(f, b)
    decreases |a|
  {
    if a == [] {
      assert a + b == b && [] + Cat(f, b) == Cat(f, b);
    } else {
      assert (a + b)[0] == a[0] && (a + b)[1..] == a[1..] + b;
      CatJoined(f, a[1..], b);
      Assoc(f(a[0]), Cat(f, a[1..]), Cat(f, b));
    }
  }

  lemma {:induction false} FoldJoined(f: (Received, Prop) -> Received, r: Received, a: seq<Prop>, b: seq<Prop>)
    ensures Fold(f, r, a + b) == Fold(f, Fold(f, r, a), b)
    decreases |a|
  {
    if a == [] {
      assert a + b == b;
    } else {
      assert (a + b)[0] == a[0] && (a + b)[1..] == a[1..] + b;
      FoldJoined(f, f(r, a[0]), a[1..], b);
    }
  }

  lemma {:induction false} EveryJoined(f: Prop -> bool, a: seq<Prop>, b: seq<Prop>)
    ensures Every(f, a + b) <==> Every(f, a) && Every(f, b)
    decreases |a|
  {
    if a == [] {
      assert a + b == b;
    } else {
      assert (a + b)[0] == a[0] && (a + b)[1..] == a[1..] + b;
      EveryJoined(f, a[1..], b);
    }
  }

  /** What two sections say, one behind the other. */
  lemma Joined(r: Received, a: seq<Prop>, b: seq<Prop>)
    ensures WireAll(a + b) == WireAll(a) + WireAll(b) && ToldAll(r, a + b) == ToldAll(ToldAll(r, a), b)
    ensures AllAccepted(a + b) <==> AllAccepted(a) && AllAccepted(b)
  {
    CatJoined(Wire, a, b);
    FoldJoined(Told, r, a, b);
    EveryJoined(Accepted, a, b);
  }

  /** One property, there or not. */
  lemma MaybeOne(r: Received, there: bool, p: Prop)
    ensures var s := If(there, p);
      && WireAll(s) == (if there then Wire(p) else []) && ToldAll(r, s) == (if there then Told(r, p) else r)
      && (AllAccepted(s) <==> there ==> Accepted(p))
  {
    if there {
      CatOne(Wire, p);
      FoldOne(Told, r, p);
      EveryOne(Accepted, p);
    }
  }

  lemma CatOne(f: Prop -> seq<byte>, p: Prop)
    ensures Cat(f, [p]) == f(p)
  {
    assert [p][1..] == [] && f(p) + [] == f(p);
  }

  lemma FoldOne(f: (Received, Prop) -> Received, r: Received, p: Prop)
    ensures Fold(f, r, [p]) == f(r, p)
  {
    assert [p][1..] == [];
  }

  lemma EveryOne(f: Prop -> bool, p: Prop)
    ensures Every(f, [p]) <==> f(p)
  {
    assert [p][1..] == [];
  }

  lemma NumbersSent(p: Wanted)
    requires Sized(p)
    ensures WireAll(SentNumbers(p)) == Scalars(p) && ToldAll(NOTHING, SentNumbers(p)) == AfterScalars(p)
    ensures AllAccepted(SentNumbers(p))
  {
    var f := If(p.formatIndicator, FormatIndicator(1));
    Joined(NOTHING, f + If(p.expiry != 0, Expiry(p.expiry)), If(p.alias != 0, Alias(p.alias)));
    Joined(NOTHING, f, If(p.expiry != 0, Expiry(p.expiry)));
    var r := NOTHING.(formatIndicator := p.formatIndicator);
    FormatSent(p.formatIndicator);
    ExpirySent(r, p.expiry);
    AliasSent(r.(expiry := p.expiry), p.alias);
  }

  lemma FormatSent(there: bool)
    ensures var s := If(there, FormatIndicator(1));
      && WireAll(s) == Optional(there, FORMAT_INDICATOR, Field(1, 1)) && AllAccepted(s)
      && ToldAll(NOTHING, s) == NOTHING.(formatIndicator := there)
  {
    FieldOne(1);
    MaybeOne(NOTHING, there, FormatIndicator(1));
  }

  lemma ExpirySent(r: Received, n: nat)
    requires n < 0x1_0000_0000 && r.expiry == 0
    ensures var s := If(n != 0, Expiry(n));
      && WireAll(s) == Optional(n != 0, EXPIRY_INTERVAL, Field(n, 4)) && AllAccepted(s)
      && ToldAll(r, s) == r.(expiry := n)
  {
    ExpiryWire(n);
    MaybeOne(r, n != 0, Expiry(n));
  }

  lemma AliasSent(r: Received, n: nat)
    requires n < 65536 && r.alias == 0
    ensures var s := If(n != 0, Alias(n));
      && WireAll(s) == Optional(n != 0, TOPIC_ALIAS, Field(n, 2)) && AllAccepted(s) && ToldAll(r, s) == r.(alias := n)
  {
    AliasWire(n);
    MaybeOne(r, n != 0, Alias(n));
  }

  lemma StringsSent(p: Wanted)
    requires Writable(p)
    ensures WireAll(SentStrings(p)) == Strings(p) && ToldAll(AfterScalars(p), SentStrings(p)) == AfterStrings(p)
    ensures AllAccepted(SentStrings(p)) <==> ShortResponse(p)
  {
    var x, y := Content(p.responseTopic), Content(p.correlation);
    var a := If(p.responseTopic.Some?, ResponseTopic(x));
    Joined(AfterScalars(p), a, If(Given(p.correlation), Correlation(y)));
    PrefixedIsStr(x);
    PrefixedIsStr(y);
    MaybeOne(AfterScalars(p), p.responseTopic.Some?, ResponseTopic(x));
    MaybeOne(ToldAll(AfterScalars(p), a), Given(p.correlation), Correlation(y));
  }

  lemma {:induction false} PairsSent(r: Received, us: seq<(seq<byte>, seq<byte>)>)
    requires AllPairs(us)
    ensures WireAll(Pairs(us)) == Users(us) && ToldAll(r, Pairs(us)) == WithUsers(r, us)
    ensures AllAccepted(Pairs(us)) <==> AllShort(us)
    decreases |us|
  {
    if us == [] {
      assert r.users + us == r.users;
    } else {
      PairSent(r, us[0]);
      Joined(r, [UserPair(us[0].0, us[0].1)], Pairs(us[1..]));
      PairsSent(WithUsers(r, [us[0]]), us[1..]);
      WithUsersCons(r, us);
    }
  }

  lemma PairSent(r: Received, u: (seq<byte>, seq<byte>))
    requires |u.0| < 65536 && |u.1| < 65536
    ensures var s := [UserPair(u.0, u.1)];
      WireAll(s) == User(u) && ToldAll(r, s) == WithUsers(r, [u]) && (AllAccepted(s) <==> Short(u))
  {
    MaybeOne(r, true, UserPair(u.0, u.1));
    PrefixedIsStr(u.0);
    PrefixedIsStr(u.1);
    assert u == (u.0, u.1);
  }

  lemma TypeSent(p: Wanted)
    requires Writable(p)
    ensures WireAll(SentType(p)) == Type(p)
    ensures ToldAll(WithUsers(AfterStrings(p), p.users), SentType(p)) == Expected(p) && AllAccepted(SentType(p))
  {
    var x := Content(p.contentType);
    PrefixedIsStr(x);
    MaybeOne(WithUsers(AfterStrings(p), p.users), p.contentType.Some?, ContentType(x));
    assert [] + p.users == p.users;
  }

  /** The section of `mqtt5_msg_publish`, byte by byte, and what it tells. */
  lemma SectionSent(p: Wanted)
    requires Writable(p)
    ensures WireAll(Sent(p)) == Section(p)
    ensures ToldAll(NOTHING, Sent(p)) == Expected(p) && (AllAccepted(Sent(p)) <==> WithinCap(p))
  {
    var a, b, c, d := SentNumbers(p), SentStrings(p), Pairs(p.users), SentType(p);
    Joined(NOTHING, a + b + c, d);
    Joined(NOTHING, a + b, c);
    Joined(NOTHING, a, b);
    NumbersSent(p);
    StringsSent(p);
    PairsSent(AfterStrings(p), p.users);
    ShortUsers(p.users);
    TypeSent(p);
  }

  /**
   * A PUBLISH of this client as a broker forwards it, with properties of the broker's own, such
   * as a subscription identifier, behind the client's.
   */
  lemma ForwardedReceived(header: byte, topic: seq<byte>, id: seq<byte>, p: Wanted, added: seq<Prop>,
                          payload: seq<byte>)
    requires Writable(p) && |topic| < 65536 && |id| == (if header / 2 % 4 > 0 then 2 else 0)
    requires var s := Section(p) + WireAll(added); |Prefixed(topic) + id + Encode(|s|) + s + payload| < LIMIT
    ensures var s := Section(p) + WireAll(added);
      Decode5(Whole(header, Prefixed(topic) + id + Encode(|s|) + s + payload))
      == Done(Publish5(topic, ToldAll(Expected(p), added), payload))
      <==> |s| < 65536 && WithinCap(p) && AllAccepted(added)
  {
    SectionSent(p);
    Joined(NOTHING, Sent(p), added);
    AnyPublishReceived(header, topic, id, Sent(p) + added, payload);
  }

  /** A subscription identifier of 300, in the two bytes it takes. */
  lemma SubscriptionExample(p: Wanted)
    ensures WireAll([SubscriptionId(300)]) == [0x0B, 0xAC, 0x02]
    ensures ToldAll(Expected(p), [SubscriptionId(300)]) == Expected(p).(subscribeId := 300)
  {
    EncodeTwo(300, 2);
    MaybeOne(Expected(p), true, SubscriptionId(300));
  }
}
