/** Compact access tokens: unpadded base64url (RFC 4648, section 5; RFC 7515, section 3.1), signing and
    verification. */
module Tokens {
  import opened Wrappers

  type Byte = x: nat | x < 256 witness 0
  type Sextet = x: nat | x < 64 witness 0

  // ----- base64url -----

  function Char(v: Sextet): char {
    if v < 26 then 'A' + v as char
    else if v < 52 then 'a' + (v - 26) as char
    else if v < 62 then '0' + (v - 52) as char
    else if v == 62 then '-' else '_'
  }

  /** The decoder also reads the two characters of the standard alphabet. */
  function Value(c: char): Option<Sextet> {
    if 'A' <= c <= 'Z' then Some(c as int - 'A' as int)
    else if 'a' <= c <= 'z' then Some(c as int - 'a' as int + 26)
    else if '0' <= c <= '9' then Some(c as int - '0' as int + 52)
    else if c == '-' || c == '+' then Some(62)
    else if c == '_' || c == '/' then Some(63)
    else None
  }

  /** The four characters of three bytes. */
  function Quad(a: Byte, b: Byte, c: Byte): (group: string)
    ensures |group| == 4
  {
    [Char(a / 4), Char(a % 4 * 16 + b / 16), Char(b % 16 * 4 + c / 64), Char(c % 64)]
  }

  function Encoded(bytes: seq<Byte>): string {
    if bytes == [] then ""
    else if |bytes| == 1 then [Char(bytes[0] / 4), Char(bytes[0] % 4 * 16)]
    else if |bytes| == 2 then
      [Char(bytes[0] / 4), Char(bytes[0] % 4 * 16 + bytes[1] / 16), Char(bytes[1] % 16 * 4)]
    else
      Quad(bytes[0], bytes[1], bytes[2]) + Encoded(bytes[3..])
  }

  function Padding(length: nat): string {
    match length % 4
    case 0 => ""
    case 1 => "==="
    case 2 => "=="
    case 3 => "="
  }

  function RightStripped(s: string): string {
    if s != "" && s[|s| - 1] == '=' then RightStripped(s[..|s| - 1]) else s
  }

  /** Encode with padding, then take the padding off. */
  function ToText(bytes: seq<Byte>): string {
    RightStripped(Encoded(bytes) + Padding(|Encoded(bytes)|))
  }

  /** What is left over after `quad` characters of a group of four. */
  predicate Fits(quad: nat, left: nat) {
    match quad
    case 0 => left == 0
    case 1 => left < 64
    case 2 => left < 16
    case 3 => left < 4
    case _ => false
  }

  function Prepend(b: Byte, rest: Option<seq<Byte>>): Option<seq<Byte>> {
    if rest.Some? then Some([b] + rest.value) else None
  }

  /** The tolerant decoder: other characters are skipped, padding that completes a group ends the
      text, and text that ends inside a group is an error. */
  function DecodedFrom(s: string, quad: nat, left: nat, pads: nat): Option<seq<Byte>>
    requires Fits(quad, left)
  {
    if s == "" then (if quad == 0 then Some([]) else None)
    else if s[0] == '=' then
      if quad >= 2 && quad + pads + 1 >= 4 then Some([])
      else DecodedFrom(s[1..], quad, left, if quad >= 2 then pads + 1 else pads)
    else
      match Value(s[0])
      case None => DecodedFrom(s[1..], quad, left, pads)
      case Some(v) =>
        if quad == 0 then DecodedFrom(s[1..], 1, v, 0)
        else if quad == 1 then Prepend(left * 4 + v / 16, DecodedFrom(s[1..], 2, v % 16, 0))
        else if quad == 2 then Prepend(left * 16 + v / 4, DecodedFrom(s[1..], 3, v % 4, 0))
        else Prepend(left * 64 + v, DecodedFrom(s[1..], 0, 0, 0))
  }

  /** Put the padding back and decode; text outside ASCII is an error. */
  function FromText(s: string): Option<seq<Byte>> {
    if exists i :: 0 <= i < |s| && s[i] as int >= 128 then None else DecodedFrom(s + Padding(|s|), 0, 0, 0)
  }

  lemma ValueOfChar(v: Sextet)
    ensures Value(Char(v)) == Some(v) && Char(v) != '=' && Char(v) != '.' && Char(v) as int < 128
  {
  }

  /** No dot, no padding and nothing outside ASCII. */
  predicate Clean(s: string) {
    forall i :: 0 <= i < |s| ==> s[i] != '=' && s[i] != '.' && s[i] as int < 128
  }

  lemma {:induction false} EncodedClean(bytes: seq<Byte>)
    ensures Clean(Encoded(bytes))
  {
    forall v: Sextet ensures Char(v) != '=' && Char(v) != '.' && Char(v) as int < 128 {
      ValueOfChar(v);
    }
    if |bytes| >= 3 {
      EncodedClean(bytes[3..]);
    }
  }

  lemma {:induction false} StripsPadding(s: string, n: nat)
    requires Clean(s)
    ensures RightStripped(s + seq(n, i => '=')) == s
  {
    var padded := s + seq(n, i => '=');
    if n == 0 {
      assert padded == s;
    } else {
      assert padded[..|padded| - 1] == s + seq(n - 1, i => '=');
      StripsPadding(s, n - 1);
    }
  }

  lemma ToTextIsEncoded(bytes: seq<Byte>)
    ensures ToText(bytes) == Encoded(bytes)
  {
    var s := Encoded(bytes);
    EncodedClean(bytes);
    StripsPadding(s, |Padding(|s|)|);
    assert Padding(|s|) == seq(|Padding(|s|)|, i => '=');
  }

  /** One character of the alphabet, inside a group. */
  lemma DecodesChar(v: Sextet, rest: string, quad: nat, left: nat)
    requires Fits(quad, left)
    ensures DecodedFrom([Char(v)] + rest, quad, left, 0) ==
      if quad == 0 then DecodedFrom(rest, 1, v, 0)
      else if quad == 1 then Prepend(left * 4 + v / 16, DecodedFrom(rest, 2, v % 16, 0))
      else if quad == 2 then Prepend(left * 16 + v / 4, DecodedFrom(rest, 3, v % 4, 0))
      else Prepend(left * 64 + v, DecodedFrom(rest, 0, 0, 0))
  {
    ValueOfChar(v);
    assert ([Char(v)] + rest)[1..] == rest;
  }

  lemma FirstByte(a: Byte, b: Byte)
    ensures a % 4 * 16 + b / 16 < 64 && a / 4 * 4 + (a % 4 * 16 + b / 16) / 16 == a
    ensures (a % 4 * 16 + b / 16) % 16 == b / 16
  {
  }

  lemma SecondByte(b: Byte, c: Byte)
    ensures b % 16 * 4 + c / 64 < 64 && b / 16 * 16 + (b % 16 * 4 + c / 64) / 4 == b
    ensures (b % 16 * 4 + c / 64) % 4 == c / 64
  {
  }

  lemma DecodesFront(a: Byte, b: Byte, rest: string)
    ensures DecodedFrom([Char(a / 4)] + ([Char(a % 4 * 16 + b / 16)] + rest), 0, 0, 0)
      == Prepend(a, DecodedFrom(rest, 2, b / 16, 0))
  {
    FirstByte(a, b);
    DecodesChar(a / 4, [Char(a % 4 * 16 + b / 16)] + rest, 0, 0);
    DecodesChar(a % 4 * 16 + b / 16, rest, 1, a / 4);
  }

  lemma DecodesBack(b: Byte, c: Byte, rest: string)
    ensures DecodedFrom([Char(b % 16 * 4 + c / 64)] + ([Char(c % 64)] + rest), 2, b / 16, 0)
      == Prepend(b, Prepend(c, DecodedFrom(rest, 0, 0, 0)))
  {
    SecondByte(b, c);
    DecodesChar(b % 16 * 4 + c / 64, [Char(c % 64)] + rest, 2, b / 16);
    DecodesChar(c % 64, rest, 3, c / 64);
  }

  lemma OneByOne(w: char, x: char, y: char, z: char, rest: string)
    ensures [w, x, y, z] + rest == [w] + ([x] + ([y] + ([z] + rest)))
  {
  }

  /** A whole group of four characters yields its three bytes. */
  lemma DecodesGroup(a: Byte, b: Byte, c: Byte, rest: string)
    ensures DecodedFrom(Quad(a, b, c) + rest, 0, 0, 0) == Prepend(a, Prepend(b, Prepend(c, DecodedFrom(rest, 0, 0, 0))))
  {
    var back := [Char(b % 16 * 4 + c / 64)] + ([Char(c % 64)] + rest);
    DecodesFront(a, b, back);
    DecodesBack(b, c, rest);
    OneByOne(Char(a / 4), Char(a % 4 * 16 + b / 16), Char(b % 16 * 4 + c / 64), Char(c % 64), rest);
  }

  /** Padding after two characters of a group, or one after three, ends the text. */
  lemma DecodesPadding(left: nat)
    requires left < 16
    ensures DecodedFrom("==", 2, left, 0) == Some([])
    ensures left < 4 ==> DecodedFrom("=", 3, left, 0) == Some([])
  {
    assert "=="[1..] == "=";
  }

  lemma PrependLast(b: Byte)
    ensures Prepend(b, Some([])) == Some([b])
  {
    var none: seq<Byte> := [];
    assert [b] + none == [b];
  }

  lemma DecodesOne(a: Byte)
    ensures DecodedFrom([Char(a / 4), Char(a % 4 * 16)] + "==", 0, 0, 0) == Some([a])
  {
    var w: Sextet, x: Sextet := a / 4, a % 4 * 16;
    assert w * 4 + x / 16 == a && x % 16 == 0;
    DecodesChar(w, [Char(x)] + "==", 0, 0);
    DecodesChar(x, "==", 1, w);
    DecodesPadding(0);
    assert [Char(w), Char(x)] + "==" == [Char(w)] + ([Char(x)] + "==");
    PrependLast(a);
  }

  lemma DecodesTwo(a: Byte, b: Byte)
    ensures DecodedFrom([Char(a / 4), Char(a % 4 * 16 + b / 16), Char(b % 16 * 4)] + "=", 0, 0, 0) == Some([a, b])
  {
    FirstByte(a, b);
    var w: Sextet, x: Sextet, y: Sextet := a / 4, a % 4 * 16 + b / 16, b % 16 * 4;
    assert b / 16 * 16 + y / 4 == b && y % 4 == 0;
    var s2 := [Char(y)] + "=";
    var s1 := [Char(x)] + s2;
    DecodesChar(w, s1, 0, 0);
    DecodesChar(x, s2, 1, w);
    DecodesChar(y, "=", 2, b / 16);
    DecodesPadding(0);
    assert [Char(w), Char(x), Char(y)] + "=" == [Char(w)] + s1;
    PrependLast(b);
    assert [a] + [b] == [a, b];
  }

  lemma OnePadded(a: Byte)
    ensures DecodedFrom(Encoded([a]) + Padding(|Encoded([a])|), 0, 0, 0) == Some([a])
  {
    DecodesOne(a);
    assert Padding(2) == "==";
  }

  lemma EncodedTwo(a: Byte, b: Byte)
    ensures Encoded([a, b]) + Padding(|Encoded([a, b])|) ==
      [Char(a / 4), Char(a % 4 * 16 + b / 16), Char(b % 16 * 4)] + "="
  {
    assert Padding(3) == "=";
  }

  lemma TwoPadded(a: Byte, b: Byte)
    ensures DecodedFrom(Encoded([a, b]) + Padding(|Encoded([a, b])|), 0, 0, 0) == Some([a, b])
  {
    EncodedTwo(a, b);
    DecodesTwo(a, b);
  }

  lemma {:induction false} DecodesPadded(bytes: seq<Byte>)
    ensures DecodedFrom(Encoded(bytes) + Padding(|Encoded(bytes)|), 0, 0, 0) == Some(bytes)
  {
    if |bytes| == 1 {
      assert bytes == [bytes[0]];
      OnePadded(bytes[0]);
    } else if |bytes| == 2 {
      assert bytes == [bytes[0], bytes[1]];
      TwoPadded(bytes[0], bytes[1]);
    } else if |bytes| >= 3 {
      DecodesPadded(bytes[3..]);
      DecodesMore(bytes[0], bytes[1], bytes[2], bytes[3..]);
      assert bytes == [bytes[0]] + ([bytes[1]] + ([bytes[2]] + bytes[3..]));
    }
  }

  lemma EncodedMore(a: Byte, b: Byte, c: Byte, bytes: seq<Byte>)
    ensures Encoded([a] + ([b] + ([c] + bytes))) == Quad(a, b, c) + Encoded(bytes)
  {
    var more := [a] + ([b] + ([c] + bytes));
    assert more[0] == a && more[1] == b && more[2] == c && more[3..] == bytes;
  }

  /** Whole groups in front change neither the padding nor what follows them. */
  lemma PaddedBehind(group: string, s: string)
    requires |group| == 4
    ensures group + s + Padding(|group + s|) == group + (s + Padding(|s|))
  {
    assert |group + s| % 4 == |s| % 4;
  }

  lemma DecodesMore(a: Byte, b: Byte, c: Byte, bytes: seq<Byte>)
    ensures var s, all := Encoded(bytes), Encoded([a] + ([b] + ([c] + bytes)));
      DecodedFrom(all + Padding(|all|), 0, 0, 0) ==
        Prepend(a, Prepend(b, Prepend(c, DecodedFrom(s + Padding(|s|), 0, 0, 0))))
  {
    var s := Encoded(bytes);
    EncodedMore(a, b, c, bytes);
    PaddedBehind(Quad(a, b, c), s);
    DecodesGroup(a, b, c, s + Padding(|s|));
  }

  /** Decoding inverts encoding, for all bytes. */
  lemma TextRoundTrip(bytes: seq<Byte>)
    ensures FromText(ToText(bytes)) == Some(bytes)
  {
    ToTextIsEncoded(bytes);
    EncodedClean(bytes);
    DecodesPadded(bytes);
  }

  // ----- tokens -----

  datatype Json = Text(text: string) | Number(number: int) | Flag(flag: bool) | Other

  datatype LoginUser = LoginUser(id: int, email: string, onboardingRequired: bool)

  /** JSON text of an object and back, decimal text of a number and back, the keyed hash, and the
      configured lifetime. */
  datatype Setup = Setup(dumps: map<string, Json> -> seq<Byte>, loads: seq<Byte> -> Option<map<string, Json>>,
                         show: int -> string, parse: string -> Option<int>,
                         hmac: string -> seq<Byte>, expiresIn: int)

  ghost predicate Faithful(k: Setup) {
    (forall v :: k.loads(k.dumps(v)) == Some(v)) && (forall n :: k.parse(k.show(n)) == Some(n))
  }

  const HEADER: map<string, Json> := map["alg" := Text("HS256"), "typ" := Text("JWT")]

  function Body(k: Setup, user: LoginUser, now: int): map<string, Json> {
    map["sub" := Text(k.show(user.id)), "email" := Text(user.email), "iat" := Number(now),
        "exp" := Number(now + k.expiresIn), "onboarding_required" := Flag(user.onboardingRequired)]
  }

  function Signed(k: Setup, user: LoginUser, now: int): string {
    var input := ToText(k.dumps(HEADER)) + "." + ToText(k.dumps(Body(k, user, now)));
    input + "." + ToText(k.hmac(input))
  }

  /** The parts of a text between its dots. */
  function Split(s: string): seq<string> {
    if s == "" then [""]
    else if s[0] == '.' then [""] + Split(s[1..])
    else
      var rest := Split(s[1..]);
      [[s[0]] + rest[0]] + rest[1..]
  }

  function DecodedObject(k: Setup, text: string): Option<map<string, Json>> {
    var raw := FromText(text);
    if raw.Some? then k.loads(raw.value) else None
  }

  /** A subject is decimal text, or a number or truth value. */
  function AsNumber(k: Setup, j: Json): Option<int> {
    match j
    case Text(s) => k.parse(s)
    case Number(n) => Some(n)
    case Flag(b) => Some(if b then 1 else 0)
    case Other => None
  }

  function AsExpiry(j: Json): Option<int> {
    if j.Number? then Some(j.number) else if j.Flag? then Some(if j.flag then 1 else 0) else None
  }

  function Verify(k: Setup, token: string, now: int): Option<LoginUser> {
    var parts := Split(token);
    if |parts| != 3 then None
    else
      var expected := ToText(k.hmac(parts[0] + "." + parts[1]));
      var head, body := DecodedObject(k, parts[0]), DecodedObject(k, parts[1]);
      if head.None? || body.None? || "sub" !in body.value then None
      else
        var id := AsNumber(k, body.value["sub"]);
        var b := body.value;
        if id.None? || parts[2] != expected || head.value != HEADER || id.value <= 0
           || "email" !in b || !b["email"].Text?
           || "exp" !in b || AsExpiry(b["exp"]).None? || AsExpiry(b["exp"]).value <= now
           || ("onboarding_required" in b && !b["onboarding_required"].Flag?)
        then None
        else Some(LoginUser(id.value, b["email"].text, "onboarding_required" in b && b["onboarding_required"].flag))
  }

  lemma {:induction false} SplitClean(s: string)
    requires Clean(s)
    ensures Split(s) == [s]
  {
    if s != "" {
      SplitClean(s[1..]);
      assert s == [s[0]] + s[1..];
    }
  }

  lemma {:induction false} SplitAtDot(s: string, rest: string)
    requires Clean(s)
    ensures Split(s + "." + rest) == [s] + Split(rest)
  {
    var all := s + "." + rest;
    if s == "" {
      assert all[1..] == rest;
    } else {
      assert all[1..] == s[1..] + "." + rest;
      SplitAtDot(s[1..], rest);
      assert s == [s[0]] + s[1..];
    }
  }

  lemma ToTextClean(bytes: seq<Byte>)
    ensures Clean(ToText(bytes))
  {
    ToTextIsEncoded(bytes);
    EncodedClean(bytes);
  }

  lemma SplitsInThree(header: string, payload: string, signature: string)
    requires Clean(header) && Clean(payload) && Clean(signature)
    ensures Split(header + "." + payload + "." + signature) == [header, payload, signature]
  {
    assert header + "." + payload + "." + signature == header + "." + (payload + "." + signature);
    SplitAtDot(header, payload + "." + signature);
    SplitAtDot(payload, signature);
    SplitClean(signature);
  }

  /** A signed token has exactly its three parts between the dots. */
  lemma SignedHasThreeParts(k: Setup, user: LoginUser, now: int)
    ensures var header, payload := ToText(k.dumps(HEADER)), ToText(k.dumps(Body(k, user, now)));
      Split(Signed(k, user, now)) == [header, payload, ToText(k.hmac(header + "." + payload))]
  {
    var header, payload := ToText(k.dumps(HEADER)), ToText(k.dumps(Body(k, user, now)));
    ToTextClean(k.dumps(HEADER));
    ToTextClean(k.dumps(Body(k, user, now)));
    ToTextClean(k.hmac(header + "." + payload));
    SplitsInThree(header, payload, ToText(k.hmac(header + "." + payload)));
  }

  /** A signed token is accepted as its user exactly until it expires, if the id is positive. */
  lemma VerifySigned(k: Setup, user: LoginUser, issued: int, now: int)
    requires Faithful(k)
    ensures Verify(k, Signed(k, user, issued), now) ==
      if user.id > 0 && now < issued + k.expiresIn then Some(user) else None
  {
    SignedHasThreeParts(k, user, issued);
    TextRoundTrip(k.dumps(HEADER));
    TextRoundTrip(k.dumps(Body(k, user, issued)));
    BodyFields(k, user, issued);
  }

  lemma BodyFields(k: Setup, user: LoginUser, now: int)
    ensures var b := Body(k, user, now);
      && "sub" in b && b["sub"] == Text(k.show(user.id))
      && "email" in b && b["email"] == Text(user.email)
      && "exp" in b && b["exp"] == Number(now + k.expiresIn)
      && "onboarding_required" in b && b["onboarding_required"] == Flag(user.onboardingRequired)
  {
  }

  /** Whatever the token, an accepted one carries the keyed hash of its own first two parts. */
  lemma AcceptedIsSigned(k: Setup, token: string, now: int)
    requires Verify(k, token, now).Some?
    ensures exists header, payload :: token == header + "." + payload + "." + ToText(k.hmac(header + "." + payload))
  {
    var parts := Split(token);
    JoinsBack(token);
    JoinedThree(parts);
  }

  lemma JoinedThree(parts: seq<string>)
    requires |parts| == 3
    ensures Joined(parts) == parts[0] + "." + parts[1] + "." + parts[2]
  {
    var rest := parts[1..];
    assert rest[1..] == [parts[2]];
    assert Joined([parts[2]]) == parts[2];
    assert Joined(rest) == parts[1] + "." + parts[2];
    assert Joined(parts) == parts[0] + "." + (parts[1] + "." + parts[2]);
  }

  function Joined(parts: seq<string>): string {
    if parts == [] then "" else if |parts| == 1 then parts[0] else parts[0] + "." + Joined(parts[1..])
  }

  lemma {:induction false} JoinsBack(s: string)
    ensures Joined(Split(s)) == s
  {
    if s != "" {
      JoinsBack(s[1..]);
      var rest := Split(s[1..]);
      if s[0] == '.' {
        assert ([""] + rest)[1..] == rest;
      } else {
        assert ([[s[0]] + rest[0]] + rest[1..])[1..] == rest[1..];
      }
    }
  }
}
