/** CSRF tokens: "timestamp:nonce:signature", printed for a user and checked against a clock. */
module Csrf {
  import opened Common
  import opened Text

  const CSRF_TOKEN_LIFETIME: int := 86_400

  datatype Verdict =
    | Valid
    | MissingToken
    | InvalidFormat
    | Expired
    | InvalidTimestamp
    | InvalidSignature
    | ValidationFailed  // an exception inside the checks

  /** The truncated keyed hash of a message, in hexadecimal. */
  type Mac = string -> string

  predicate NoColon(s: string) { ':' !in s }

  /** The printed form contains no separator. */
  ghost predicate Printable(mac: Mac) { forall m :: NoColon(mac(m)) && IsAscii(mac(m)) }

  /** These two messages do not collide. */
  predicate NoCollision(mac: Mac, m: string, n: string) { mac(m) == mac(n) ==> m == n }

  // ---- splitting and joining ----

  /** s.split(':') */
  function Split(s: string): (parts: seq<string>)
    ensures parts != []
  {
    if s == "" then [""]
    else
      var rest := Split(s[1..]);
      if s[0] == ':' then [""] + rest else [[s[0]] + rest[0]] + rest[1..]
  }

  function Join(parts: seq<string>): string
    requires parts != []
  {
    if |parts| == 1 then parts[0] else parts[0] + ":" + Join(parts[1..])
  }

  lemma {:induction false} PartsHaveNoColon(s: string)
    ensures forall i :: 0 <= i < |Split(s)| ==> NoColon(Split(s)[i])
  {
    if s != "" {
      var rest, parts := Split(s[1..]), Split(s);
      PartsHaveNoColon(s[1..]);
      forall i | 0 <= i < |parts| ensures NoColon(parts[i]) {
        assert s[0] == ':' && i > 0 ==> parts[i] == rest[i - 1];
        assert s[0] != ':' && i > 0 ==> parts[i] == rest[i];
        assert NoColon(rest[0]);
      }
    }
  }

  lemma {:induction false} JoinPrefixed(c: char, rest: seq<string>)
    requires rest != []
    ensures Join([[c] + rest[0]] + rest[1..]) == [c] + Join(rest)
    ensures Join([""] + rest) == ":" + Join(rest)
  {
    assert ([[c] + rest[0]] + rest[1..])[1..] == rest[1..];
    assert ([""] + rest)[1..] == rest;
    if |rest| > 1 {
      assert ([c] + rest[0]) + ":" + Join(rest[1..]) == [c] + (rest[0] + ":" + Join(rest[1..]));
    }
  }

  /** Joining undoes splitting, and no part holds a separator. */
  lemma {:induction false} JoinSplit(s: string)
    ensures Join(Split(s)) == s
    ensures forall i :: 0 <= i < |Split(s)| ==> NoColon(Split(s)[i])
  {
    PartsHaveNoColon(s);
    if s != "" {
      JoinSplit(s[1..]);
      JoinPrefixed(s[0], Split(s[1..]));
      assert s == [s[0]] + s[1..];
    }
  }

  lemma {:induction false} SplitPlain(s: string)
    requires NoColon(s)
    ensures Split(s) == [s]
  {
    if s != "" {
      assert forall c :: c in s[1..] ==> c in s;
      SplitPlain(s[1..]);
      assert s[0] in s && s == [s[0]] + s[1..];
    }
  }

  lemma {:induction false} SplitFirst(a: string, s: string)
    requires NoColon(a)
    ensures Split(a + ":" + s) == [a] + Split(s)
  {
    if a == "" {
      assert (a + ":" + s)[1..] == s;
    } else {
      assert a[0] in a;
      assert (a + ":" + s)[1..] == a[1..] + ":" + s;
      SplitFirst(a[1..], s);
      assert [a[0]] + a[1..] == a;
    }
  }

  /** Splitting undoes joining, for parts without a separator. */
  lemma {:induction false} SplitJoin(parts: seq<string>)
    requires parts != [] && forall i :: 0 <= i < |parts| ==> NoColon(parts[i])
    ensures Split(Join(parts)) == parts
  {
    if |parts| == 1 {
      SplitPlain(parts[0]);
    } else {
      SplitJoin(parts[1..]);
      SplitFirst(parts[0], Join(parts[1..]));
    }
  }

  lemma {:induction false} SplitThree(a: string, b: string, c: string)
    requires NoColon(a) && NoColon(b) && NoColon(c)
    ensures Split(a + ":" + b + ":" + c) == [a, b, c]
  {
    SplitJoin([a, b, c]);
    assert [a, b, c][1..] == [b, c] && [b, c][1..] == [c];
    assert Join([b, c]) == b + ":" + Join([c]) == b + ":" + c;
    assert Join([a, b, c]) == a + ":" + Join([b, c]);
    assert a + ":" + (b + ":" + c) == a + ":" + b + ":" + c;
  }

  /** A text with exactly two separators. */
  ghost predicate ThreeParts(token: string, a: string, b: string, c: string) {
    NoColon(a) && NoColon(b) && NoColon(c) && token == a + ":" + b + ":" + c
  }

  lemma {:induction false} RejoinThree(s: string)
    requires |Split(s)| == 3
    ensures ThreeParts(s, Split(s)[0], Split(s)[1], Split(s)[2])
  {
    var parts := Split(s);
    JoinSplit(s);
    assert parts[1..] == [parts[1], parts[2]] && parts[1..][1..] == [parts[2]];
    assert Join(parts[1..]) == parts[1] + ":" + parts[2];
    assert parts[0] + ":" + (parts[1] + ":" + parts[2]) == parts[0] + ":" + parts[1] + ":" + parts[2];
  }

  // ---- tokens ----

  function Message(timestamp: string, nonce: string, user: nat): string {
    timestamp + ":" + nonce + ":" + Decimal(user)
  }

  /** generate_token */
  function Generate(mac: Mac, user: nat, nonce: string, now: nat): string {
    var timestamp := Decimal(now);
    timestamp + ":" + nonce + ":" + mac(Message(timestamp, nonce, user))
  }

  /** validate_token. Reading a timestamp that is no number, or comparing a signature that is not ASCII, raises. */
  function Validate(mac: Mac, token: string, user: nat, now: int): Verdict {
    if token == "" then MissingToken
    else
      var parts := Split(token);
      if |parts| != 3 then InvalidFormat
      else
        match ParseInt(parts[0])
        case None => ValidationFailed
        case Some(timestamp) =>
          var age := now - timestamp;
          if age > CSRF_TOKEN_LIFETIME then Expired
          else if age < 0 then InvalidTimestamp
          else if !IsAscii(parts[2]) then ValidationFailed
          else if parts[2] != mac(Message(parts[0], parts[1], user)) then InvalidSignature
          else Valid
  }

  lemma {:induction false} DigitsHaveNoColon(s: string)
    requires AllDigits(s)
    ensures NoColon(s)
  {
    assert forall c :: c in s ==> IsDigit(c);
  }

  /** A token printed for a user is valid for that user exactly from its issue to one day later, and is otherwise
      turned down for the right reason. */
  lemma {:induction false} ValidForADay(mac: Mac, user: nat, nonce: string, issued: nat, now: int)
    requires Printable(mac) && NoColon(nonce)
    ensures Validate(mac, Generate(mac, user, nonce, issued), user, now) ==
            if now < issued then InvalidTimestamp
            else if now > issued + 86_400 then Expired
            else Valid
  {
    DecimalReadsBack(issued);
    DigitsHaveNoColon(Decimal(issued));
    SplitThree(Decimal(issued), nonce, mac(Message(Decimal(issued), nonce, user)));
    assert ParseInt(Decimal(issued)) == Some(issued as int);
  }

  /** What acceptance means, for any token whatever: three parts, a timestamp within the last day, and the
      signature of exactly these parts for exactly this user. */
  ghost predicate Genuine(mac: Mac, token: string, user: nat, now: int, timestamp: string, nonce: string) {
    && NoColon(timestamp) && NoColon(nonce)
    && token == timestamp + ":" + nonce + ":" + mac(Message(timestamp, nonce, user))
    && ParseInt(timestamp).Some?
    && 0 <= now - ParseInt(timestamp).value <= 86_400
  }

  lemma {:induction false} AcceptedIffGenuine(mac: Mac, token: string, user: nat, now: int)
    requires Printable(mac)
    ensures Validate(mac, token, user, now).Valid? <==>
            exists timestamp, nonce :: Genuine(mac, token, user, now, timestamp, nonce)
  {
    if Validate(mac, token, user, now).Valid? {
      var parts := Split(token);
      RejoinThree(token);
      assert Genuine(mac, token, user, now, parts[0], parts[1]);
    }
    if timestamp, nonce :| Genuine(mac, token, user, now, timestamp, nonce) {
      SplitThree(timestamp, nonce, mac(Message(timestamp, nonce, user)));
    }
  }

  /** The reasons for which any token is turned down: the first that applies, in this order. */
  lemma {:induction false} RefusalsInOrder(mac: Mac, token: string, user: nat, now: int)
    ensures Validate(mac, token, user, now) == MissingToken <==> token == ""
    ensures Validate(mac, token, user, now) == InvalidFormat <==> token != "" && !exists a, b, c :: ThreeParts(token, a, b, c)
    ensures forall a, b, c :: ThreeParts(token, a, b, c) ==>
              Validate(mac, token, user, now) ==
              if ParseInt(a).None? then ValidationFailed
              else if now > ParseInt(a).value + 24 * 60 * 60 then Expired
              else if now < ParseInt(a).value then InvalidTimestamp
              else if !IsAscii(c) then ValidationFailed
              else if c != mac(Message(a, b, user)) then InvalidSignature
              else Valid
  {
    forall a, b, c | ThreeParts(token, a, b, c) ensures Split(token) == [a, b, c] {
      SplitThree(a, b, c);
    }
    if |Split(token)| == 3 {
      RejoinThree(token);
    }
  }

  /** Messages for different users differ. */
  lemma {:induction false} MessageNamesUser(timestamp: string, nonce: string, user: nat, other: nat)
    requires Message(timestamp, nonce, user) == Message(timestamp, nonce, other)
    ensures user == other
  {
    var prefix := timestamp + ":" + nonce + ":";
    assert Message(timestamp, nonce, user)[|prefix|..] == Decimal(user);
    assert Message(timestamp, nonce, other)[|prefix|..] == Decimal(other);
    DecimalInjective(user, other);
  }

  /** The message names all three: timestamp, nonce and user. */
  lemma {:induction false} MessageDetermines(timestamp: string, nonce: string, user: nat, timestamp': string, nonce': string, other: nat)
    requires NoColon(timestamp) && NoColon(nonce) && NoColon(timestamp') && NoColon(nonce')
    requires Message(timestamp, nonce, user) == Message(timestamp', nonce', other)
    ensures timestamp == timestamp' && nonce == nonce' && user == other
  {
    DecimalReadsBack(user);
    DecimalReadsBack(other);
    DigitsHaveNoColon(Decimal(user));
    DigitsHaveNoColon(Decimal(other));
    SplitThree(timestamp, nonce, Decimal(user));
    SplitThree(timestamp', nonce', Decimal(other));
    DecimalInjective(user, other);
  }

  /** A signature moved to another timestamp, nonce or user is accepted only where the two messages collide. */
  lemma {:induction false} MovedSignatureIsRefused(mac: Mac, timestamp: string, nonce: string, user: nat,
                                                   timestamp': string, nonce': string, other: nat, now: int)
    requires Printable(mac) && NoColon(timestamp) && NoColon(nonce) && NoColon(timestamp') && NoColon(nonce')
    requires timestamp != timestamp' || nonce != nonce' || user != other
    ensures Message(timestamp, nonce, user) != Message(timestamp', nonce', other)
    ensures Validate(mac, timestamp' + ":" + nonce' + ":" + mac(Message(timestamp, nonce, user)), other, now).Valid? ==>
              mac(Message(timestamp, nonce, user)) == mac(Message(timestamp', nonce', other))
  {
    SplitThree(timestamp', nonce', mac(Message(timestamp, nonce, user)));
    if Message(timestamp, nonce, user) == Message(timestamp', nonce', other) {
      MessageDetermines(timestamp, nonce, user, timestamp', nonce', other);
    }
  }

  /** A token accepted for two users, at any two times, is accepted for one and the same, unless the two messages it would
      sign collide: no token of one user works for another. */
  lemma {:induction false} OneUserPerToken(mac: Mac, token: string, user: nat, now: int, other: nat, later: int)
    requires Validate(mac, token, user, now).Valid? && Validate(mac, token, other, later).Valid?
    requires var parts := Split(token); |parts| >= 2 ==>
      NoCollision(mac, Message(parts[0], parts[1], user), Message(parts[0], parts[1], other))
    ensures user == other
  {
    MessageNamesUser(Split(token)[0], Split(token)[1], user, other);
  }

  /** A printed token tried for another user gets through, within its day, exactly where the two users' messages collide;
      otherwise it is refused at every moment. */
  lemma {:induction false} RefusedForOthers(mac: Mac, user: nat, other: nat, nonce: string, issued: nat, now: int)
    requires Printable(mac) && NoColon(nonce) && user != other
    ensures var m, n := Message(Decimal(issued), nonce, user), Message(Decimal(issued), nonce, other);
      && m != n
      && Validate(mac, Generate(mac, user, nonce, issued), other, now) ==
         if now < issued then InvalidTimestamp
         else if now > issued + 86_400 then Expired
         else if mac(m) == mac(n) then Valid
         else InvalidSignature
  {
    DecimalReadsBack(issued);
    DigitsHaveNoColon(Decimal(issued));
    SplitThree(Decimal(issued), nonce, mac(Message(Decimal(issued), nonce, user)));
    assert ParseInt(Decimal(issued)) == Some(issued as int);
    if Message(Decimal(issued), nonce, user) == Message(Decimal(issued), nonce, other) {
      MessageNamesUser(Decimal(issued), nonce, user, other);
    }
  }
}
