/** Resume tokens: their text form, their parser, and the message their signature covers. */
module ResumeToken {
  import opened Wrappers
  import opened Decimal

  datatype ResumeToken = ResumeToken(random: string, signature: string, expireAt: int64) {
    function String(): string {
      random + "." + signature + "." + Format(expireAt)
    }

    predicate WellFormed() {
      random != "" && signature != "" && '.' !in random && '.' !in signature
    }
  }

  /** strings.IndexByte: the first position of `c`, or -1. */
  function IndexByte(s: string, c: char): (i: int)
    ensures -1 <= i < |s|
    ensures i == -1 ==> c !in s
    ensures i >= 0 ==> s[i] == c && c !in s[..i]
  {
    if s == "" then -1
    else if s[0] == c then 0
    else
      var i := IndexByte(s[1..], c);
      if i < 0 then -1 else
        assert s[..i + 1] == [s[0]] + s[1..][..i];
        i + 1
  }

  /** The token is cut at its first two dots. */
  function Parse(token: string): (r: Option<ResumeToken>) {
    var idx1 := IndexByte(token, '.');
    if idx1 < 0 then None
    else
      var rest := token[idx1 + 1..];
      var idx2 := IndexByte(rest, '.');
      if idx2 < 0 then None
      else
        var random := token[..idx1];
        var signature := rest[..idx2];
        if |random| == 0 || |signature| == 0 then None
        else
          match ScanInt(rest[idx2 + 1..])
          case None => None
          case Some(expireAt) => Some(ResumeToken(random, signature, expireAt))
  }

  /** The text after the second dot. */
  function ExpireText(token: string): string {
    var rest := token[IndexByte(token, '.') + 1..];
    rest[IndexByte(rest, '.') + 1..]
  }

  lemma FirstDot(front: string, back: string)
    requires '.' !in front
    ensures IndexByte(front + "." + back, '.') == |front|
    ensures (front + "." + back)[..|front|] == front
    ensures (front + "." + back)[|front| + 1..] == back
  {
    var s := front + "." + back;
    var i := IndexByte(s, '.');
    assert s[|front|] == '.';
    assert forall k | 0 <= k < |front| :: s[k] == front[k];
    assert forall k | 0 <= k < i :: s[..i][k] == s[k];
  }

  lemma CutAtDot(s: string)
    requires IndexByte(s, '.') >= 0
    ensures var i := IndexByte(s, '.');
            s == s[..i] + "." + s[i + 1..] && '.' !in s[..i]
  {
  }

  /** A token whose first two fields carry no dot is cut exactly where it was joined. */
  lemma ParseJoined(random: string, signature: string, expireStr: string)
    requires random != "" && signature != "" && '.' !in random && '.' !in signature
    ensures Parse(random + "." + (signature + "." + expireStr))
         == match ScanInt(expireStr) case None => None case Some(e) => Some(ResumeToken(random, signature, e))
    ensures ExpireText(random + "." + (signature + "." + expireStr)) == expireStr
  {
    FirstDot(random, signature + "." + expireStr);
    FirstDot(signature, expireStr);
  }

  lemma StringIsJoined(rt: ResumeToken)
    ensures rt.String() == rt.random + "." + (rt.signature + "." + Format(rt.expireAt))
  {
  }

  /** Everything the parser accepts is well formed, and the token is its three fields joined by dots. */
  lemma ParseIsSound(token: string)
    requires Parse(token).Some?
    ensures Parse(token).value.WellFormed()
    ensures token == Parse(token).value.random + "." + (Parse(token).value.signature + "." + ExpireText(token))
    ensures ScanInt(ExpireText(token)) == Some(Parse(token).value.expireAt)
  {
    CutAtDot(token);
    CutAtDot(token[IndexByte(token, '.') + 1..]);
  }

  /** The printer and the parser undo each other exactly on well-formed tokens. */
  lemma RoundTripIff(rt: ResumeToken)
    ensures Parse(rt.String()) == Some(rt) <==> rt.WellFormed()
  {
    if rt.WellFormed() {
      StringIsJoined(rt);
      ParseJoined(rt.random, rt.signature, Format(rt.expireAt));
      FormatIsCanonical(rt.expireAt);
      ScanCanonical(Format(rt.expireAt));
      ParseFormat(rt.expireAt);
    } else if Parse(rt.String()).Some? {
      ParseIsSound(rt.String());
    }
  }

  /** A received text is what its own parse prints exactly when its expiry is written canonically:
      leading blanks, '+', zeros and trailing text are accepted but not reproduced. */
  lemma ReprintIff(token: string)
    requires Parse(token).Some?
    ensures Parse(token).value.String() == token <==> Canonical(ExpireText(token))
    ensures Parse(Parse(token).value.String()) == Parse(token)
  {
    var rt := Parse(token).value;
    var text := ExpireText(token);
    ParseIsSound(token);
    RoundTripIff(rt);
    StringIsJoined(rt);
    if rt.String() == token {
      ParseJoined(rt.random, rt.signature, Format(rt.expireAt));
      FormatIsCanonical(rt.expireAt);
    }
    if Canonical(text) {
      ScanCanonical(text);
      FormatParseIff(text, rt.expireAt);
    }
  }

  /** The signed message, "uid|roomID|expireAt". */
  function Payload(uid: int64, roomID: string, expireAt: int64): string {
    Format(uid) + "|" + roomID + "|" + Format(expireAt)
  }

  lemma FormatHasNoBar(n: int64)
    ensures '|' !in Format(n)
  {
    FormatIsCanonical(n);
  }

  /** Bar-free ends fix where a bar-separated text must be cut, whatever lies between. */
  lemma BarFreeFrontsAgree(a: string, x: string, b: string, y: string)
    requires '|' !in a && '|' !in b && a + "|" + x == b + "|" + y
    ensures a == b && x == y
  {
    var s := a + "|" + x;
    assert s == b + "|" + y;
    assert s[|a|] == '|' && s[|b|] == '|';
    assert forall k | 0 <= k < |a| :: s[k] == a[k];
    assert forall k | 0 <= k < |b| :: s[k] == b[k];
    assert a == s[..|a|] && b == s[..|b|];
    assert x == s[|a| + 1..] && y == s[|b| + 1..];
  }

  lemma BarFreeBacksAgree(x: string, a: string, y: string, b: string)
    requires '|' !in a && '|' !in b && x + "|" + a == y + "|" + b
    ensures x == y && a == b
  {
    var s := x + "|" + a;
    assert s == y + "|" + b;
    assert s[|x|] == '|' && s[|y|] == '|';
    assert forall k | |x| < k < |s| :: s[k] == a[k - |x| - 1];
    assert forall k | |y| < k < |s| :: s[k] == b[k - |y| - 1];
    assert x == s[..|x|] && y == s[..|y|];
    assert a == s[|x| + 1..] && b == s[|y| + 1..];
  }

  lemma PayloadSplits(uid: int64, roomID: string, expireAt: int64)
    ensures Payload(uid, roomID, expireAt) == Format(uid) + "|" + (roomID + "|" + Format(expireAt))
  {
  }

  /** Read from the front, the payload gives the uid before the first bar; read from the back, the expiry after the
      last one; the room name is all that stands between. */
  lemma PayloadMeans(uid: int64, roomID: string, expireAt: int64)
    ensures var p, u, e := Payload(uid, roomID, expireAt), Format(uid), Format(expireAt);
      && |p| == |u| + 1 + |roomID| + 1 + |e|
      && p[..|u|] == u && '|' !in u && p[|u|] == '|'
      && p[|u| + 1..|p| - |e| - 1] == roomID && p[|p| - |e| - 1] == '|'
      && p[|p| - |e|..] == e && '|' !in e
  {
    FormatHasNoBar(uid);
    FormatHasNoBar(expireAt);
  }

  /** Different triples are signed as different messages, even when the room name holds bars and digits. */
  lemma PayloadIsInjective(uid: int64, roomID: string, expireAt: int64, uid': int64, roomID': string, expireAt': int64)
    requires Payload(uid, roomID, expireAt) == Payload(uid', roomID', expireAt')
    ensures uid == uid' && roomID == roomID' && expireAt == expireAt'
  {
    FormatHasNoBar(uid);
    FormatHasNoBar(uid');
    FormatHasNoBar(expireAt);
    FormatHasNoBar(expireAt');
    var rest, rest' := roomID + "|" + Format(expireAt), roomID' + "|" + Format(expireAt');
    PayloadSplits(uid, roomID, expireAt);
    PayloadSplits(uid', roomID', expireAt');
    BarFreeFrontsAgree(Format(uid), rest, Format(uid'), rest');
    BarFreeBacksAgree(roomID, Format(expireAt), roomID', Format(expireAt'));
    FormatIsInjective(uid, uid');
    FormatIsInjective(expireAt, expireAt');
  }

  /** Seconds a fresh token lives. */
  const TTL := 30

  /** GenerateResumeToken, with the random prefix and the keyed digest `mac` supplied by the caller. */
  function Generate(mac: string -> string, random: string, uid: int64, roomID: string, now: int64): ResumeToken
    requires now <= MAX_INT64 - TTL
  {
    ResumeToken(random, mac(Payload(uid, roomID, now + TTL)), now + TTL)
  }

  /** VerifyResumeToken at unix second `now`. */
  predicate Verify(mac: string -> string, token: string, uid: int64, roomID: string, now: int64) {
    match Parse(token)
    case None => false
    case Some(rt) => now <= rt.expireAt && mac(Payload(uid, roomID, rt.expireAt)) == rt.signature
  }

  /** Signatures as base64url produces them: never empty, never a dot. */
  ghost predicate DotFree(mac: string -> string) {
    forall m :: mac(m) != "" && '.' !in mac(m)
  }

  /** Two different texts with one code. */
  ghost predicate Collide(mac: string -> string, m: string, m': string) {
    m != m' && mac(m) == mac(m')
  }

  /** A printed token verifies for its own player and room until it expires. To verify for anybody else, or for
      another room, takes two different payloads with one code. */
  lemma TokenBindsPlayerAndRoom(mac: string -> string, random: string, uid: int64, roomID: string, issued: int64,
                                uid': int64, roomID': string, now: int64)
    requires issued <= MAX_INT64 - TTL
    requires random != "" && '.' !in random && DotFree(mac)
    ensures var expireAt: int64 := issued + 30;
      Verify(mac, Generate(mac, random, uid, roomID, issued).String(), uid', roomID', now)
      <==> now <= expireAt && ((uid == uid' && roomID == roomID') ||
                               Collide(mac, Payload(uid, roomID, expireAt), Payload(uid', roomID', expireAt)))
  {
    var rt := Generate(mac, random, uid, roomID, issued);
    RoundTripIff(rt);
    if Payload(uid', roomID', rt.expireAt) == Payload(uid, roomID, rt.expireAt) {
      PayloadIsInjective(uid, roomID, rt.expireAt, uid', roomID', rt.expireAt);
    }
  }
}
