/**
 * When `mqtt5_get_publish_property_payload` recovers what `mqtt5_msg_publish` wrote.
 */
module RoundTrip5 {
  import opened Bytes
  import opened VarInt
  import opened Packet
  import opened Properties
  import opened Connections
  import Builder5
  import Decode

  // ----- fields at a position -----

  ghost predicate At(m: seq<byte>, pos: nat, x: seq<byte>) {
    pos + |x| <= |m| && m[pos..pos + |x|] == x
  }

  lemma AtConcat(m: seq<byte>, pos: nat, a: seq<byte>, b: seq<byte>)
    ensures At(m, pos, a + b) <==> At(m, pos, a) && At(m, pos + |a|, b)
  {
    if pos + |a + b| <= |m| {
      var s := m[pos..pos + |a + b|];
      assert m[pos..pos + |a|] == s[..|a|] && m[pos + |a|..pos + |a + b|] == s[|a|..];
      assert s == s[..|a|] + s[|a|..];
      assert (a + b)[..|a|] == a && (a + b)[|a|..] == b;
    }
  }

  lemma AtByte(m: seq<byte>, pos: nat, b: byte)
    ensures At(m, pos, [b]) <==> pos < |m| && m[pos] == b
  {
  }

  lemma AtSuffix(m: seq<byte>, pos: nat, x: seq<byte>)
    requires At(m, pos, x)
    ensures m[pos..] == x + m[pos + |x|..]
  {
    assert m[pos..] == m[pos..pos + |x|] + m[pos + |x|..];
  }

  lemma AtU16(m: seq<byte>, pos: nat, n: nat)
    requires At(m, pos, U16(n)) && n < 65536
    ensures pos + 2 <= |m| && FromU16(m[pos], m[pos + 1]) == n
  {
    var s := m[pos..pos + 2];
    assert s[0] == m[pos] && s[1] == m[pos + 1];
    U16RoundTrip(n);
  }

  lemma AtStr(m: seq<byte>, pos: nat, s: seq<byte>)
    requires At(m, pos, Str(s)) && |s| < 65536
    ensures pos + 2 + |s| <= |m| && FromU16(m[pos], m[pos + 1]) == |s| && m[pos + 2..pos + 2 + |s|] == s
  {
    AtConcat(m, pos, U16(|s|), s);
    AtU16(m, pos, |s|);
  }

  lemma AtVarLen(m: seq<byte>, pos: nat, n: nat)
    requires At(m, pos, Encode(n)) && n < LIMIT
    ensures VarLen(m[pos..]) == (n, |Encode(n)|)
  {
    AtSuffix(m, pos, Encode(n));
    EncodeFourBytes(n);
    ScanEncode(n, m[pos + |Encode(n)|..], 4);
  }

  // ----- one property -----

  /** The section occupies `n` bytes from `at`, and `x` lies in it at `off`. */
  ghost predicate Within(m: seq<byte>, at: nat, n: nat, off: nat, x: seq<byte>) {
    at + n <= |m| && n < 65536 && off + |x| <= n && At(m, at + off, x)
  }

  lemma WithinConcat(m: seq<byte>, at: nat, n: nat, off: nat, a: seq<byte>, b: seq<byte>)
    requires Within(m, at, n, off, a + b)
    ensures Within(m, at, n, off, a) && Within(m, at, n, off + |a|, b)
  {
    AtConcat(m, at + off, a, b);
  }

  /** A property that is there: its identifier, then its value. */
  lemma WithinOptional(m: seq<byte>, at: nat, n: nat, off: nat, kind: byte, value: seq<byte>)
    requires Within(m, at, n, off, Optional(true, kind, value))
    ensures off < n && m[at + off] == kind && Within(m, at, n, off + 1, value)
  {
    WithinConcat(m, at, n, off, [kind], value);
    AtByte(m, at + off, kind);
  }

  /** What the loop reads where a property starts. */
  ghost function Read(m: seq<byte>, at: nat, n: nat, off: nat, r: Received): Parse<Cursor>
    requires at + n <= |m| && off < n < 65536
  {
    Property(m, at, n, m[at + off], off + 1, r)
  }

  lemma ReadFormat(m: seq<byte>, at: nat, n: nat, off: nat, r: Received)
    requires Within(m, at, n, off, Optional(true, FORMAT_INDICATOR, Field(1, 1)))
    ensures off < n && Read(m, at, n, off, r) == Done(Cursor(off + 2, r.(formatIndicator := true)))
  {
    FieldOne(1);
    WithinOptional(m, at, n, off, FORMAT_INDICATOR, Field(1, 1));
    AtByte(m, at + off + 1, 1);
  }

  lemma ReadExpiry(m: seq<byte>, at: nat, n: nat, off: nat, r: Received, expiry: nat)
    requires Within(m, at, n, off, Optional(true, EXPIRY_INTERVAL, Field(expiry, 4))) && expiry < 0x1_0000_0000
    ensures off < n && Read(m, at, n, off, r) == Done(Cursor(off + 5, r.(expiry := expiry)))
  {
    var f := Field(expiry, 4);
    WithinOptional(m, at, n, off, EXPIRY_INTERVAL, f);
    FieldFour(expiry);
    var pos := at + off + 1;
    var s := m[pos..pos + 4];
    assert s[0] == m[pos] && s[1] == m[pos + 1] && s[2] == m[pos + 2] && s[3] == m[pos + 3];
  }

  lemma ReadAlias(m: seq<byte>, at: nat, n: nat, off: nat, r: Received, alias: nat)
    requires Within(m, at, n, off, Optional(true, TOPIC_ALIAS, Field(alias, 2))) && alias < 65536
    ensures off < n && Read(m, at, n, off, r) == Done(Cursor(off + 3, r.(alias := alias)))
  {
    FieldTwo(alias);
    WithinOptional(m, at, n, off, TOPIC_ALIAS, Field(alias, 2));
    AtU16(m, at + off + 1, alias);
  }

  /** A length-prefixed field is read back unless it is over the cap. */
  lemma CappedStr(m: seq<byte>, at: nat, n: nat, off: nat, s: seq<byte>)
    requires Within(m, at, n, off, Str(s))
    ensures Capped(m, at, n, off) == if |s| <= MAX_STRING then Done((s, off + 2 + |s|)) else Rejected
  {
    AtStr(m, at + off, s);
  }

  lemma TrustedStr(m: seq<byte>, at: nat, n: nat, off: nat, s: seq<byte>)
    requires Within(m, at, n, off, Str(s))
    ensures Trusted(m, at, off) == Done((s, off + 2 + |s|))
  {
    AtStr(m, at + off, s);
  }

  lemma ReadResponse(m: seq<byte>, at: nat, n: nat, off: nat, r: Received, s: seq<byte>)
    requires Within(m, at, n, off, Optional(true, RESPONSE_TOPIC, Str(s)))
    ensures off < n && Read(m, at, n, off, r) ==
            if |s| <= MAX_STRING then Done(Cursor(off + 3 + |s|, r.(responseTopic := Some(s)))) else Rejected
  {
    WithinOptional(m, at, n, off, RESPONSE_TOPIC, Str(s));
    CappedStr(m, at, n, off + 1, s);
  }

  lemma ReadCorrelation(m: seq<byte>, at: nat, n: nat, off: nat, r: Received, s: seq<byte>)
    requires Within(m, at, n, off, Optional(true, CORRELATION_DATA, Str(s)))
    ensures off < n && Read(m, at, n, off, r) == Done(Cursor(off + 3 + |s|, r.(correlation := Some(s))))
  {
    WithinOptional(m, at, n, off, CORRELATION_DATA, Str(s));
    TrustedStr(m, at, n, off + 1, s);
  }

  lemma ReadContentType(m: seq<byte>, at: nat, n: nat, off: nat, r: Received, s: seq<byte>)
    requires Within(m, at, n, off, Optional(true, CONTENT_TYPE, Str(s)))
    ensures off < n && Read(m, at, n, off, r) == Done(Cursor(off + 3 + |s|, r.(contentType := Some(s))))
  {
    WithinOptional(m, at, n, off, CONTENT_TYPE, Str(s));
    TrustedStr(m, at, n, off + 1, s);
  }

  predicate Short(u: (seq<byte>, seq<byte>)) {
    |u.0| <= MAX_STRING && |u.1| <= MAX_STRING
  }

  function WithUsers(r: Received, us: seq<(seq<byte>, seq<byte>)>): Received {
    r.(users := r.users + us)
  }

  lemma UserParts(m: seq<byte>, at: nat, n: nat, off: nat, u: (seq<byte>, seq<byte>))
    requires Within(m, at, n, off, User(u))
    ensures |User(u)| == 5 + |u.0| + |u.1| && off < n && m[at + off] == USER_PROPERTY
    ensures Within(m, at, n, off + 1, Str(u.0)) && Within(m, at, n, off + 3 + |u.0|, Str(u.1))
  {
    WithinConcat(m, at, n, off, [USER_PROPERTY] + Str(u.0), Str(u.1));
    WithinConcat(m, at, n, off, [USER_PROPERTY], Str(u.0));
    AtByte(m, at + off, USER_PROPERTY);
  }

  lemma ReadUser(m: seq<byte>, at: nat, n: nat, off: nat, r: Received, u: (seq<byte>, seq<byte>))
    requires Within(m, at, n, off, User(u))
    ensures off < n && Read(m, at, n, off, r) ==
            if Short(u) then Done(Cursor(off + |User(u)|, WithUsers(r, [u]))) else Rejected
  {
    UserParts(m, at, n, off, u);
    UserPropertyRead(m, at, n, off + 1, r, u);
  }

  lemma UserPropertyRead(m: seq<byte>, at: nat, n: nat, off: nat, r: Received, u: (seq<byte>, seq<byte>))
    requires Within(m, at, n, off, Str(u.0)) && Within(m, at, n, off + |Str(u.0)|, Str(u.1))
    ensures UserProperty(m, at, n, off, r) ==
            if Short(u) then Done(Cursor(off + |Str(u.0)| + |Str(u.1)|, WithUsers(r, [u]))) else Rejected
  {
    CappedStr(m, at, n, off, u.0);
    if |u.0| <= MAX_STRING { CappedStr(m, at, n, off + 2 + |u.0|, u.1); }
    assert u == (u.0, u.1);
  }

  // ----- the loop -----

  /** `w` is the property loop as a function of where it stands. */
  ghost predicate IsLoop(w: Cursor -> Parse<Cursor>, m: seq<byte>, at: nat, n: nat) {
    && at + n <= |m| && n < 65536
    && forall c: Cursor {:trigger Walk(m, at, n, c.off, c.r)} :: c.off < 65536 ==> w(c) == Walk(m, at, n, c.off, c.r)
  }

  function After(w: Cursor -> Parse<Cursor>, p: Parse<Cursor>): Parse<Cursor> {
    match p
    case Done(c) => w(c)
    case Rejected => Rejected
    case Overrun => Overrun
  }

  lemma Turn(w: Cursor -> Parse<Cursor>, m: seq<byte>, at: nat, n: nat, off: nat, r: Received, p: Parse<Cursor>)
    requires IsLoop(w, m, at, n) && off < n && Read(m, at, n, off, r) == p
    ensures w(Cursor(off, r)) == After(w, p)
  {
    var c := Cursor(off, r);
    assert w(c) == Walk(m, at, n, c.off, c.r);
    if p.Done? { assert w(p.value) == Walk(m, at, n, p.value.off, p.value.r); }
  }

  lemma LoopEnd(w: Cursor -> Parse<Cursor>, m: seq<byte>, at: nat, n: nat, r: Received)
    requires IsLoop(w, m, at, n)
    ensures w(Cursor(n, r)) == Done(Cursor(n, r))
  {
    var c := Cursor(n, r);
    assert w(c) == Walk(m, at, n, c.off, c.r);
  }

  lemma WalkFormat(w: Cursor -> Parse<Cursor>, m: seq<byte>, at: nat, n: nat, format: bool)
    requires IsLoop(w, m, at, n) && Within(m, at, n, 0, Optional(format, FORMAT_INDICATOR, Field(1, 1)))
    ensures w(Cursor(0, NOTHING)) == w(Cursor(if format then 2 else 0, NOTHING.(formatIndicator := format)))
  {
    if format {
      ReadFormat(m, at, n, 0, NOTHING);
      Turn(w, m, at, n, 0, NOTHING, Done(Cursor(2, NOTHING.(formatIndicator := true))));
    }
  }

  lemma WalkExpiry(w: Cursor -> Parse<Cursor>, m: seq<byte>, at: nat, n: nat, off: nat, r: Received, expiry: nat)
    requires IsLoop(w, m, at, n) && Within(m, at, n, off, Optional(expiry != 0, EXPIRY_INTERVAL, Field(expiry, 4)))
    requires expiry < 0x1_0000_0000 && r.expiry == 0
    ensures w(Cursor(off, r)) == w(Cursor(off + if expiry != 0 then 5 else 0, r.(expiry := expiry)))
  {
    if expiry != 0 {
      ReadExpiry(m, at, n, off, r, expiry);
      Turn(w, m, at, n, off, r, Done(Cursor(off + 5, r.(expiry := expiry))));
    }
  }

  lemma WalkAlias(w: Cursor -> Parse<Cursor>, m: seq<byte>, at: nat, n: nat, off: nat, r: Received, alias: nat)
    requires IsLoop(w, m, at, n) && Within(m, at, n, off, Optional(alias != 0, TOPIC_ALIAS, Field(alias, 2)))
    requires alias < 65536 && r.alias == 0
    ensures w(Cursor(off, r)) == w(Cursor(off + if alias != 0 then 3 else 0, r.(alias := alias)))
  {
    if alias != 0 {
      ReadAlias(m, at, n, off, r, alias);
      Turn(w, m, at, n, off, r, Done(Cursor(off + 3, r.(alias := alias))));
    }
  }

  lemma ScalarsParts(m: seq<byte>, at: nat, n: nat, p: Wanted) returns (a: nat, b: nat)
    requires Within(m, at, n, 0, Scalars(p))
    ensures a == (if p.formatIndicator then 2 else 0) && b == a + (if p.expiry != 0 then 5 else 0)
    ensures |Scalars(p)| == b + (if p.alias != 0 then 3 else 0)
    ensures Within(m, at, n, 0, Optional(p.formatIndicator, FORMAT_INDICATOR, Field(1, 1)))
    ensures Within(m, at, n, a, Optional(p.expiry != 0, EXPIRY_INTERVAL, Field(p.expiry, 4)))
    ensures Within(m, at, n, b, Optional(p.alias != 0, TOPIC_ALIAS, Field(p.alias, 2)))
  {
    var format := Optional(p.formatIndicator, FORMAT_INDICATOR, Field(1, 1));
    var expiry := Optional(p.expiry != 0, EXPIRY_INTERVAL, Field(p.expiry, 4));
    WithinConcat(m, at, n, 0, format + expiry, Optional(p.alias != 0, TOPIC_ALIAS, Field(p.alias, 2)));
    WithinConcat(m, at, n, 0, format, expiry);
    a, b := |format|, |format| + |expiry|;
  }

  lemma WalkScalars(w: Cursor -> Parse<Cursor>, m: seq<byte>, at: nat, n: nat, p: Wanted)
    requires IsLoop(w, m, at, n) && Sized(p) && Within(m, at, n, 0, Scalars(p))
    ensures w(Cursor(0, NOTHING)) == w(Cursor(|Scalars(p)|, AfterScalars(p)))
  {
    var a, b := ScalarsParts(m, at, n, p);
    var r := NOTHING.(formatIndicator := p.formatIndicator);
    WalkFormat(w, m, at, n, p.formatIndicator);
    WalkExpiry(w, m, at, n, a, r, p.expiry);
    WalkAlias(w, m, at, n, b, r.(expiry := p.expiry), p.alias);
  }

  function AfterScalars(p: Wanted): Received {
    Received(p.formatIndicator, p.expiry, p.alias, None, None, None, 0, [])
  }

  function AfterStrings(p: Wanted): Received {
    AfterScalars(p).(responseTopic := p.responseTopic,
                     correlation := if Given(p.correlation) then p.correlation else None)
  }

  lemma WalkResponse(w: Cursor -> Parse<Cursor>, m: seq<byte>, at: nat, n: nat, off: nat, r: Received,
                     s: Option<seq<byte>>)
    requires IsLoop(w, m, at, n) && Within(m, at, n, off, Optional(s.Some?, RESPONSE_TOPIC, Str(Content(s))))
    requires r.responseTopic == None
    ensures w(Cursor(off, r)) ==
            if s.Some? && |s.value| > MAX_STRING then Rejected
            else w(Cursor(off + (if s.Some? then 3 + |s.value| else 0), r.(responseTopic := s)))
  {
    if s.Some? {
      ReadResponse(m, at, n, off, r, s.value);
      Turn(w, m, at, n, off, r,
           if |s.value| <= MAX_STRING then Done(Cursor(off + 3 + |s.value|, r.(responseTopic := s))) else Rejected);
    }
  }

  lemma WalkCorrelation(w: Cursor -> Parse<Cursor>, m: seq<byte>, at: nat, n: nat, off: nat, r: Received,
                        s: Option<seq<byte>>)
    requires IsLoop(w, m, at, n) && Within(m, at, n, off, Optional(Given(s), CORRELATION_DATA, Str(Content(s))))
    requires r.correlation == None
    ensures w(Cursor(off, r)) ==
            w(Cursor(off + (if Given(s) then 3 + |s.value| else 0), r.(correlation := if Given(s) then s else None)))
  {
    if Given(s) {
      ReadCorrelation(m, at, n, off, r, s.value);
      Turn(w, m, at, n, off, r, Done(Cursor(off + 3 + |s.value|, r.(correlation := s))));
    }
  }

  lemma StringsParts(m: seq<byte>, at: nat, n: nat, off: nat, p: Wanted)
    requires Within(m, at, n, off, Strings(p))
    ensures var a := if p.responseTopic.Some? then 3 + |p.responseTopic.value| else 0;
      && |Strings(p)| == a + (if Given(p.correlation) then 3 + |p.correlation.value| else 0)
      && Within(m, at, n, off, Optional(p.responseTopic.Some?, RESPONSE_TOPIC, Str(Content(p.responseTopic))))
      && Within(m, at, n, off + a, Optional(Given(p.correlation), CORRELATION_DATA, Str(Content(p.correlation))))
  {
    WithinConcat(m, at, n, off, Optional(p.responseTopic.Some?, RESPONSE_TOPIC, Str(Content(p.responseTopic))),
                 Optional(Given(p.correlation), CORRELATION_DATA, Str(Content(p.correlation))));
  }

  lemma WalkStrings(w: Cursor -> Parse<Cursor>, m: seq<byte>, at: nat, n: nat, off: nat, p: Wanted)
    requires IsLoop(w, m, at, n) && Within(m, at, n, off, Strings(p))
    ensures w(Cursor(off, AfterScalars(p))) ==
            if ShortResponse(p) then w(Cursor(off + |Strings(p)|, AfterStrings(p))) else Rejected
  {
    var a := if p.responseTopic.Some? then 3 + |p.responseTopic.value| else 0;
    StringsParts(m, at, n, off, p);
    WalkResponse(w, m, at, n, off, AfterScalars(p), p.responseTopic);
    if ShortResponse(p) {
      WalkCorrelation(w, m, at, n, off + a, AfterScalars(p).(responseTopic := p.responseTopic), p.correlation);
    }
  }

  predicate ShortResponse(p: Wanted) {
    p.responseTopic.Some? ==> |p.responseTopic.value| <= MAX_STRING
  }

  lemma WithUsersCons(r: Received, us: seq<(seq<byte>, seq<byte>)>)
    requires us != []
    ensures WithUsers(WithUsers(r, [us[0]]), us[1..]) == WithUsers(r, us)
  {
    assert us == [us[0]] + us[1..];
    Assoc(r.users, [us[0]], us[1..]);
  }

  /** No key or value is over the cap. */
  predicate AllShort(us: seq<(seq<byte>, seq<byte>)>) {
    us == [] || (Short(us[0]) && AllShort(us[1..]))
  }

  /** All user properties, in order; the first one over the cap stops the parser. */
  lemma {:induction false} WalkUsers(w: Cursor -> Parse<Cursor>, m: seq<byte>, at: nat, n: nat, off: nat, r: Received,
                                     us: seq<(seq<byte>, seq<byte>)>)
    requires IsLoop(w, m, at, n) && Within(m, at, n, off, Users(us))
    ensures w(Cursor(off, r)) == if AllShort(us) then w(Cursor(off + |Users(us)|, WithUsers(r, us))) else Rejected
    decreases |us|
  {
    if us == [] {
      assert r.users + us == r.users;
    } else {
      WithinConcat(m, at, n, off, User(us[0]), Users(us[1..]));
      WalkUser(w, m, at, n, off, r, us[0]);
      if Short(us[0]) {
        WithUsersCons(r, us);
        WalkUsers(w, m, at, n, off + |User(us[0])|, WithUsers(r, [us[0]]), us[1..]);
      }
    }
  }

  lemma WalkUser(w: Cursor -> Parse<Cursor>, m: seq<byte>, at: nat, n: nat, off: nat, r: Received,
                 u: (seq<byte>, seq<byte>))
    requires IsLoop(w, m, at, n) && Within(m, at, n, off, User(u))
    ensures w(Cursor(off, r)) == if Short(u) then w(Cursor(off + |User(u)|, WithUsers(r, [u]))) else Rejected
  {
    ReadUser(m, at, n, off, r, u);
    Turn(w, m, at, n, off, r, if Short(u) then Done(Cursor(off + |User(u)|, WithUsers(r, [u]))) else Rejected);
  }

  lemma WalkContentType(w: Cursor -> Parse<Cursor>, m: seq<byte>, at: nat, n: nat, off: nat, p: Wanted)
    requires IsLoop(w, m, at, n) && Within(m, at, n, off, Type(p)) && off + |Type(p)| == n
    ensures w(Cursor(off, WithUsers(AfterStrings(p), p.users))) == Done(Cursor(n, Expected(p)))
  {
    var r := WithUsers(AfterStrings(p), p.users);
    assert [] + p.users == p.users;
    if p.contentType.Some? {
      ReadContentType(m, at, n, off, r, p.contentType.value);
      Turn(w, m, at, n, off, r, Done(Cursor(n, Expected(p))));
    }
    LoopEnd(w, m, at, n, Expected(p));
  }

  // ----- the whole section -----

  /** The strings that the receiver limits to 16 KiB. */
  predicate WithinCap(p: Wanted) {
    ShortResponse(p) && forall u :: u in p.users ==> Short(u)
  }

  lemma {:induction false} ShortUsers(us: seq<(seq<byte>, seq<byte>)>)
    ensures AllShort(us) <==> forall u :: u in us ==> Short(u)
    decreases |us|
  {
    if us != [] {
      ShortUsers(us[1..]);
      assert us == [us[0]] + us[1..];
    }
  }

  /** The properties as the receiver is to see them. Empty correlation data is not sent. */
  function Expected(p: Wanted): Received {
    Received(p.formatIndicator, p.expiry, p.alias, p.responseTopic,
             if Given(p.correlation) then p.correlation else None, p.contentType, 0, p.users)
  }

  lemma FourParts(m: seq<byte>, at: nat, n: nat, a: seq<byte>, b: seq<byte>, c: seq<byte>, x: seq<byte>)
    returns (i: nat, j: nat)
    requires n == |a + b + c + x| && Within(m, at, n, 0, a + b + c + x)
    ensures i == |a| && j == i + |b| && n == j + |c| + |x|
    ensures Within(m, at, n, 0, a) && Within(m, at, n, i, b) && Within(m, at, n, j, c) && Within(m, at, n, j + |c|, x)
  {
    i, j := |a|, |a| + |b|;
    WithinConcat(m, at, n, 0, a + b + c, x);
    WithinConcat(m, at, n, 0, a + b, c);
    WithinConcat(m, at, n, 0, a, b);
  }

  /** From the user properties on. */
  lemma LoopFromUsers(w: Cursor -> Parse<Cursor>, m: seq<byte>, at: nat, n: nat, off: nat, p: Wanted)
    requires IsLoop(w, m, at, n) && Within(m, at, n, off, Users(p.users))
    requires Within(m, at, n, off + |Users(p.users)|, Type(p)) && off + |Users(p.users)| + |Type(p)| == n
    ensures w(Cursor(off, AfterStrings(p))) ==
            if forall u :: u in p.users ==> Short(u) then Done(Cursor(n, Expected(p))) else Rejected
  {
    WalkUsers(w, m, at, n, off, AfterStrings(p), p.users);
    ShortUsers(p.users);
    WalkContentType(w, m, at, n, off + |Users(p.users)|, p);
  }

  /** From the response topic on. */
  lemma LoopFromStrings(w: Cursor -> Parse<Cursor>, m: seq<byte>, at: nat, n: nat, off: nat, users: nat, p: Wanted)
    requires IsLoop(w, m, at, n) && Within(m, at, n, off, Strings(p)) && users == off + |Strings(p)|
    requires Within(m, at, n, users, Users(p.users))
    requires Within(m, at, n, users + |Users(p.users)|, Type(p)) && users + |Users(p.users)| + |Type(p)| == n
    ensures w(Cursor(off, AfterScalars(p))) == if WithinCap(p) then Done(Cursor(n, Expected(p))) else Rejected
  {
    WalkStrings(w, m, at, n, off, p);
    LoopFromUsers(w, m, at, n, users, p);
  }

  /** The loop over a section as it is written: it ends at the end of the section with the
      properties that were asked for, or rejects one that is over the cap. */
  lemma LoopOverSection(w: Cursor -> Parse<Cursor>, m: seq<byte>, at: nat, p: Wanted)
    requires Sized(p) && Within(m, at, |Section(p)|, 0, Section(p)) && IsLoop(w, m, at, |Section(p)|)
    ensures w(Cursor(0, NOTHING)) == if WithinCap(p) then Done(Cursor(|Section(p)|, Expected(p))) else Rejected
  {
    var n := |Section(p)|;
    var strings, users := FourParts(m, at, n, Scalars(p), Strings(p), Users(p.users), Type(p));
    WalkScalars(w, m, at, n, p);
    LoopFromStrings(w, m, at, n, strings, users, p);
  }

  lemma WalkSection(m: seq<byte>, at: nat, p: Wanted)
    requires Sized(p) && Within(m, at, |Section(p)|, 0, Section(p))
    ensures Walk(m, at, |Section(p)|, 0, NOTHING) ==
            if WithinCap(p) then Done(Cursor(|Section(p)|, Expected(p))) else Rejected
  {
    var n := |Section(p)|;
    var w := (c: Cursor) => if c.off < 65536 && at + n <= |m| && n < 65536 then Walk(m, at, n, c.off, c.r) else Overrun;
    LoopOverSection(w, m, at, p);
  }

  // ----- the whole packet -----

  /** The section `s` at `at`, and the payload behind it, up to the end. */
  ghost predicate Lies(m: seq<byte>, at: nat, s: seq<byte>, payload: seq<byte>) {
    At(m, at, s) && At(m, at + |s|, payload) && |m| == at + |s| + |payload|
  }

  /** These are the pieces of a message. */
  ghost predicate Pieces(m: seq<byte>, h: byte, e: seq<byte>, head: seq<byte>, n: seq<byte>, s: seq<byte>,
                         payload: seq<byte>) {
    && m != [] && m[0] == h && At(m, 1, e) && At(m, 1 + |e|, head) && At(m, 1 + |e| + |head|, n)
    && Lies(m, 1 + |e| + |head| + |n|, s, payload)
  }

  /** The pieces of a concatenation are where they should be. */
  lemma PiecesLie(h: byte, e: seq<byte>, head: seq<byte>, n: seq<byte>, s: seq<byte>, payload: seq<byte>)
    returns (m: seq<byte>)
    ensures m == [h] + e + (head + n + s + payload) && Pieces(m, h, e, head, n, s, payload)
  {
    m := [h] + e + (head + n + s + payload);
    assert At(m, 0, m) by { assert m[0..|m|] == m; }
    AtConcat(m, 0, [h] + e, head + n + s + payload);
    AtConcat(m, 0, [h], e);
    var at := 1 + |e|;
    AtConcat(m, at, head + n + s, payload);
    AtConcat(m, at, head + n, s);
    AtConcat(m, at, head, n);
  }

  /** What the loop and the payload need to know about the section `s` at `at`. */
  ghost predicate Opened(m: seq<byte>, topic: seq<byte>, at: nat, s: seq<byte>, payload: seq<byte>) {
    Opens(m, topic, at, |s|) && Lies(m, at, s, payload)
  }

  /** The length of the section (in `v` bytes), section and payload. */
  ghost predicate ReadsRest(m: seq<byte>, off: nat, v: nat, s: seq<byte>, payload: seq<byte>) {
    ReadsLength(m, off, |s|, v) && Lies(m, off + v, s, payload)
  }

  ghost predicate Reads(m: seq<byte>, e: nat, topic: seq<byte>, off: nat, v: nat, s: seq<byte>, payload: seq<byte>) {
    ReadsHead(m, e, topic, off) && ReadsRest(m, off, v, s, payload)
  }

  lemma PiecesRead(m: seq<byte>, h: byte, total: nat, topic: seq<byte>, id: seq<byte>, s: seq<byte>, payload: seq<byte>)
    returns (e: nat, off: nat, v: nat)
    requires |topic| < 65536 && total < LIMIT && |s| < LIMIT && |id| == (if QosOf(h) > 0 then 2 else 0)
    requires |m| == 1 + |Encode(total)| + total
    requires Pieces(m, h, Encode(total), Str(topic) + id, Encode(|s|), s, payload)
    ensures Reads(m, e, topic, off, v, s, payload)
  {
    e := |Encode(total)|;
    off := 1 + e + |Str(topic) + id|;
    v := RestRead(m, off, s, payload);
    HeadRead(m, total, topic, id);
  }

  lemma RestRead(m: seq<byte>, off: nat, s: seq<byte>, payload: seq<byte>) returns (v: nat)
    requires |s| < LIMIT && At(m, off, Encode(|s|)) && Lies(m, off + |Encode(|s|)|, s, payload)
    ensures ReadsRest(m, off, v, s, payload)
  {
    v := |Encode(|s|)|;
    EncodeFourBytes(|s|);
    AtVarLen(m, off, |s|);
  }

  lemma HeadRead(m: seq<byte>, total: nat, topic: seq<byte>, id: seq<byte>)
    requires m != [] && |topic| < 65536 && total < LIMIT && |id| == (if QosOf(m[0]) > 0 then 2 else 0)
    requires |m| == 1 + |Encode(total)| + total && At(m, 1, Encode(total))
    requires At(m, 1 + |Encode(total)|, Str(topic) + id) && 1 + |Encode(total)| + |Str(topic) + id| < |m|
    ensures ReadsHead(m, |Encode(total)|, topic, 1 + |Encode(total)| + |Str(topic) + id|)
  {
    AtConcat(m, 1 + |Encode(total)|, Str(topic), id);
    AtVarLen(m, 1, total);
    AtStr(m, 1 + |Encode(total)|, topic);
  }

  lemma OpenReads(m: seq<byte>, e: nat, topic: seq<byte>, off: nat, v: nat, s: seq<byte>, payload: seq<byte>)
    returns (at: nat)
    requires Reads(m, e, topic, off, v, s, payload)
    ensures Opened(m, topic, at, s, payload)
  {
    at := off + v;
    OpenFrom(m, e, topic, off, |s|, v);
  }

  function Received5(topic: seq<byte>, payload: seq<byte>, q: Parse<Cursor>): Parse<Publish5> {
    match q
    case Done(c) => Done(Publish5(topic, c.r, payload))
    case Rejected => Rejected
    case Overrun => Overrun
  }

  lemma FinishAtEnd(m: seq<byte>, topic: seq<byte>, at: nat, n: nat, payload: seq<byte>, q: Parse<Cursor>)
    requires |m| == at + n + |payload| && At(m, at + n, payload) && (q.Done? ==> q.value.off == n)
    ensures Finish(m, |m|, topic, at, q) == Received5(topic, payload, q)
  {
    assert m[at + n..|m|] == payload;
  }

  /** After a section of 65536 bytes or more, something else is taken for the payload. */
  lemma FinishElsewhere(m: seq<byte>, topic: seq<byte>, at: nat, n: nat, payload: seq<byte>, r: Received,
                        q: Parse<Cursor>)
    requires n >= 65536 && |m| == at + n + |payload| && (q.Done? ==> q.value.off < 65536)
    ensures Finish(m, |m|, topic, at, q) != Done(Publish5(topic, r, payload))
  {
  }

  /** From the property loop on, given what the loop does. */
  lemma OpenedRoundTrip(m: seq<byte>, topic: seq<byte>, at: nat, s: seq<byte>, payload: seq<byte>, r: Received,
                        ok: bool)
    requires Opened(m, topic, at, s, payload)
    requires |s| < 65536 ==> Walk(m, at, |s|, 0, NOTHING) == if ok then Done(Cursor(|s|, r)) else Rejected
    ensures Decode5(m) == Done(Publish5(topic, r, payload)) <==> |s| < 65536 && ok
  {
    SmallLength(|s|);
    var n := |s| % 65536;
    var q := Walk(m, at, n, 0, NOTHING);
    assert Decode5(m) == Finish(m, |m|, topic, at, q);
    if |s| < 65536 {
      FinishAtEnd(m, topic, at, n, payload, q);
    } else {
      FinishElsewhere(m, topic, at, |s|, payload, r, q);
    }
  }

  lemma SectionRoundTrip(m: seq<byte>, topic: seq<byte>, at: nat, payload: seq<byte>, p: Wanted)
    requires Opened(m, topic, at, Section(p), payload) && Sized(p)
    ensures Decode5(m) == Done(Publish5(topic, Expected(p), payload)) <==> |Section(p)| < 65536 && WithinCap(p)
  {
    if |Section(p)| < 65536 { WalkSection(m, at, p); }
    OpenedRoundTrip(m, topic, at, Section(p), payload, Expected(p), WithinCap(p));
  }

  lemma PiecesOpen(m: seq<byte>, h: byte, total: nat, topic: seq<byte>, id: seq<byte>, s: seq<byte>, payload: seq<byte>)
    returns (at: nat)
    requires |topic| < 65536 && total < LIMIT && |s| < LIMIT && |id| == (if QosOf(h) > 0 then 2 else 0)
    requires |m| == 1 + |Encode(total)| + total
    requires Pieces(m, h, Encode(total), Str(topic) + id, Encode(|s|), s, payload)
    ensures Opened(m, topic, at, s, payload)
  {
    var e, off, v := PiecesRead(m, h, total, topic, id, s, payload);
    at := OpenReads(m, e, topic, off, v, s, payload);
  }

  lemma BodyOpens(h: byte, topic: seq<byte>, id: seq<byte>, s: seq<byte>, payload: seq<byte>)
    returns (m: seq<byte>, at: nat)
    requires |topic| < 65536 && |id| == (if QosOf(h) > 0 then 2 else 0)
    requires |Str(topic) + id + Encode(|s|) + s + payload| < LIMIT
    ensures m == Whole(h, Str(topic) + id + Encode(|s|) + s + payload) && Opened(m, topic, at, s, payload)
  {
    var body := Str(topic) + id + Encode(|s|) + s + payload;
    m := PiecesLie(h, Encode(|body|), Str(topic) + id, Encode(|s|), s, payload);
    at := PiecesOpen(m, h, |body|, topic, id, s, payload);
  }

  /** A built PUBLISH can be opened. */
  lemma Packet5Opens(topic: seq<byte>, payload: seq<byte>, qos: nat, retain: nat, id: nat, p: Wanted)
    returns (m: seq<byte>, at: nat)
    requires qos < 4 && retain < 2 && |topic| < 65536 && |Head5(topic, qos, id, p)| + |payload| < LIMIT
    ensures m == Packet5(topic, payload, qos, retain, id, p) && Opened(m, topic, at, Section(p), payload)
  {
    HeaderFields(PUBLISH, 0, qos, retain);
    var idBytes := if qos > 0 then U16(id) else [];
    m, at := BodyOpens(HeaderByte(PUBLISH, 0, qos, retain), topic, idBytes, Section(p), payload);
  }

  /**
   * The round trip: a PUBLISH built by `mqtt5_msg_publish` is received as the same topic, the
   * same properties and the same payload exactly if the property section is shorter than
   * 65536 bytes (the parser keeps its length in 16 bits) and the response topic, the keys
   * and the values are at most 16 KiB long.
   */
  lemma PublishRoundTrip(topic: seq<byte>, payload: seq<byte>, qos: nat, retain: nat, id: nat, p: Wanted)
    requires qos < 4 && retain < 2 && |topic| < 65536 && Sized(p)
    requires |Head5(topic, qos, id, p)| + |payload| < LIMIT
    ensures Decode5(Packet5(topic, payload, qos, retain, id, p)) == Done(Publish5(topic, Expected(p), payload))
            <==> |Section(p)| < 65536 && WithinCap(p)
  {
    var m, at := Packet5Opens(topic, payload, qos, retain, id, p);
    SectionRoundTrip(m, topic, at, payload, p);
  }

  /** A response topic of one byte over the cap: the message is not received. */
  lemma LongResponseTopic()
    ensures var p := UNSET.(responseTopic := Some(seq(16385, _ => 97)));
      Decode5(Packet5([97], [], 0, 0, 0, p)) != Done(Publish5([97], Expected(p), []))
  {
    var p := UNSET.(responseTopic := Some(seq(16385, _ => 97)));
    EncodeFourBytes(|Section(p)|);
    PublishRoundTrip([97], [], 0, 0, 0, p);
  }

  /** Four user properties within the cap whose section is over 16 bits: neither is this one. */
  lemma LongSection()
    ensures var p := UNSET.(users := seq(4, _ => (seq(16384, _ => 97), [97])));
      WithinCap(p) && Decode5(Packet5([97], [], 0, 0, 0, p)) != Done(Publish5([97], Expected(p), []))
  {
    var u: (seq<byte>, seq<byte>) := (seq(16384, _ => 97), [97]);
    var p := UNSET.(users := seq(4, _ => u));
    SameUsers(u, 4);
    assert |Section(p)| == |Users(p.users)| == 4 * 16390;
    EncodeFourBytes(|Section(p)|);
    PublishRoundTrip([97], [], 0, 0, 0, p);
  }

  lemma {:induction false} SameUsers(u: (seq<byte>, seq<byte>), n: nat)
    ensures |Users(seq(n, _ => u))| == n * |User(u)|
  {
    if n > 0 {
      assert seq(n, _ => u)[1..] == seq(n - 1, _ => u);
      SameUsers(u, n - 1);
    }
  }

  /** What `mqtt5_msg_publish` leaves in the connection for a message that fits the buffer is
      received as it was meant. */
  lemma BuiltRoundTrip(conn: Connection, topic: seq<byte>, payload: seq<byte>, qos: nat, retain: nat, id: nat,
                       p: Wanted, oldOffset: int)
    requires qos < 4 && retain < 2 && |topic| < 65536 && Sized(p) && |Head5(topic, qos, id, p)| + |payload| < LIMIT
    requires Builder5.BuiltWhole(conn, HeaderByte(PUBLISH, 0, qos, retain), Head5(topic, qos, id, p), payload,
                                 oldOffset)
    requires conn.fragTotal == 0
    ensures Decode5(conn.Outbound()) == Done(Publish5(topic, Expected(p), payload)) <==>
              |Section(p)| < 65536 && WithinCap(p)
  {
    PublishRoundTrip(topic, payload, qos, retain, id, p);
  }

  /** `get_variable_len` and `mqtt_get_total_length` read the same length from the same number
      of bytes, whatever the bytes are, except when four bytes pass without an end. */
  lemma LengthReadersAgree(s: seq<byte>)
    requires s != []
    ensures VarLen(s[1..]) == (Decode.RemainingOf(s), Decode.HeaderEnd(s, 4) - 1) <==>
            !(|s| >= 5 && forall i :: 1 <= i <= 4 ==> s[i] >= 128)
  {
    ScanShape(s[1..], 4);
    var r := Scan(s[1..], 4);
    forall i | 1 <= i < |s| ensures s[i] == s[1..][i - 1] {}
    if r.used == 4 && !r.ended {
      forall i | 1 <= i <= 4 ensures s[i] >= 128 { assert s[1..][i - 1] >= 128; }
    } else if r.ended {
      assert s[r.used] < 128;
    }
  }
}
