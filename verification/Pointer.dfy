/** JSON Pointers (RFC 6901): the encoder of the diff and the decoder of the schema resolver. */
module Pointer {
  import opened JsonValue

  // ---------------------------------------------------------------- tokens

  function Replace(s: string, c: char, with: string): string {
    if s == "" then "" else (if s[0] == c then with else [s[0]]) + Replace(s[1..], c, with)
  }

  /** `_pointer_token` of revalidation.py: section 3 of RFC 6901. */
  function EncodeToken(s: string): string {
    Replace(Replace(s, '~', "~0"), '/', "~1")
  }

  /** `_pointer_token` of schema.py: section 4 of RFC 6901; `None` for an invalid escape. */
  function DecodeToken(token: string): Option<string> {
    if token == "" then Some("")
    else if token[0] != '~' then
      match DecodeToken(token[1..])
      case None => None
      case Some(rest) => Some([token[0]] + rest)
    else if |token| < 2 || (token[1] != '0' && token[1] != '1') then None
    else
      match DecodeToken(token[2..])
      case None => None
      case Some(rest) => Some((if token[1] == '0' then "~" else "/") + rest)
  }

  lemma {:induction false} ReplaceAppend(a: string, b: string, c: char, with: string)
    ensures Replace(a + b, c, with) == Replace(a, c, with) + Replace(b, c, with)
  {
    if a == "" {
      assert a + b == b;
    } else {
      assert (a + b)[1..] == a[1..] + b;
      ReplaceAppend(a[1..], b, c, with);
    }
  }

  /** Decoding undoes encoding, and an encoded token holds no separator. */
  lemma {:induction false} TokenRoundTrip(s: string)
    ensures DecodeToken(EncodeToken(s)) == Some(s)
    ensures '/' !in EncodeToken(s)
  {
    if s != "" {
      TokenRoundTrip(s[1..]);
      var rest := EncodeToken(s[1..]);
      assert s == [s[0]] + s[1..];
      if s[0] == '~' {
        ReplaceAppend("~0", Replace(s[1..], '~', "~0"), '/', "~1");
        assert Replace("~0", '/', "~1") == "~0" by { assert "~0"[1..] == "0" && "0"[1..] == ""; }
        assert EncodeToken(s) == "~0" + rest;
        assert ("~0" + rest)[2..] == rest;
      } else if s[0] == '/' {
        ReplaceAppend("/", Replace(s[1..], '~', "~0"), '/', "~1");
        assert Replace("/", '/', "~1") == "~1" by { assert "/"[1..] == ""; }
        assert EncodeToken(s) == "~1" + rest;
        assert ("~1" + rest)[2..] == rest;
      } else {
        ReplaceAppend([s[0]], Replace(s[1..], '~', "~0"), '/', "~1");
        assert Replace([s[0]], '/', "~1") == [s[0]] by { assert [s[0]][1..] == ""; }
        assert EncodeToken(s) == [s[0]] + rest;
        assert ([s[0]] + rest)[1..] == rest;
      }
    }
  }

  /** What encoding does, character by character: this fixes it. */
  lemma EncodeCharacters(a: string, b: string, c: char)
    ensures EncodeToken("") == "" && EncodeToken("~") == "~0" && EncodeToken("/") == "~1"
    ensures c != '~' && c != '/' ==> EncodeToken([c]) == [c]
    ensures EncodeToken(a + b) == EncodeToken(a) + EncodeToken(b)
  {
    ReplaceAppend(a, b, '~', "~0");
    ReplaceAppend(Replace(a, '~', "~0"), Replace(b, '~', "~0"), '/', "~1");
    ReplaceOne('~', '~', "~0");
    ReplaceOne('/', '~', "~0");
    ReplaceOne(c, '~', "~0");
    ReplaceOne('/', '/', "~1");
    ReplaceOne(c, '/', "~1");
    ReplaceOne('~', '/', "~1");
    ReplaceOne('0', '/', "~1");
    ReplaceAppend("~", "0", '/', "~1");
    assert "~0" == "~" + "0";
  }

  lemma ReplaceOne(d: char, c: char, with: string)
    ensures Replace([d], c, with) == if d == c then with else [d]
  {
    assert [d][1..] == "" && with + "" == with && [d] + "" == [d];
  }

  /** Every tilde is followed by 0 or 1. */
  predicate GoodEscapes(token: string) {
    forall i | 0 <= i < |token| && token[i] == '~' :: i + 1 < |token| && (token[i + 1] == '0' || token[i + 1] == '1')
  }

  /** Decoding fails exactly on a bad escape, and undoes encoding on tokens too: encoding what it gives restores a
      token without separators. */
  lemma {:induction false} DecodeExactly(token: string)
    ensures DecodeToken(token).Some? <==> GoodEscapes(token)
    ensures DecodeToken(token).Some? && '/' !in token ==> EncodeToken(DecodeToken(token).value) == token
    decreases |token|
  {
    hide EncodeToken;
    if token == "" {
      EncodeCharacters("", "", 'x');
    } else if token[0] != '~' {
      DecodeExactly(token[1..]);
      EscapesAfter(token, 1);
      assert token == [token[0]] + token[1..];
      if DecodeToken(token).Some? { EncodeCharacters([token[0]], DecodeToken(token[1..]).value, token[0]); }
    } else if |token| >= 2 && (token[1] == '0' || token[1] == '1') {
      DecodeExactly(token[2..]);
      EscapesAfter(token, 2);
      assert token == token[..2] + token[2..] && token[..2] == ['~', token[1]];
      if DecodeToken(token).Some? {
        EncodeCharacters(if token[1] == '0' then "~" else "/", DecodeToken(token[2..]).value, 'x');
      }
    }
  }

  lemma EscapesAfter(token: string, k: nat)
    requires 1 <= k <= 2 && k <= |token| && (k == 1 ==> token[0] != '~')
    requires k == 2 ==> token[0] == '~' && (token[1] == '0' || token[1] == '1')
    ensures GoodEscapes(token) <==> GoodEscapes(token[k..])
    ensures forall c | c in token[k..] :: c in token
  {
    var rest := token[k..];
    assert forall i | 0 <= i < |rest| :: rest[i] == token[i + k];
    if GoodEscapes(rest) {
      forall i | 0 <= i < |token| && token[i] == '~'
        ensures i + 1 < |token| && (token[i + 1] == '0' || token[i + 1] == '1')
      {
        if i >= k { assert rest[i - k] == '~'; }
      }
    }
    if GoodEscapes(token) {
      forall i | 0 <= i < |rest| && rest[i] == '~'
        ensures i + 1 < |rest| && (rest[i + 1] == '0' || rest[i + 1] == '1')
      {
        assert token[i + k] == '~';
      }
    }
  }

  lemma {:induction false} DecodePlain(token: string)
    requires '~' !in token
    ensures DecodeToken(token) == Some(token)
  {
    if token != "" {
      assert forall c | c in token[1..] :: c in token;
      DecodePlain(token[1..]);
      assert token[0] in token && [token[0]] + token[1..] == token;
    }
  }

  function Prepend(front: string, r: Option<string>): Option<string> {
    match r case None => None case Some(rest) => Some(front + rest)
  }

  lemma PrependTwice(a: string, b: string, r: Option<string>)
    ensures Prepend(a, Prepend(b, r)) == Prepend(a + b, r)
    ensures Prepend("", r) == r
  {
    if r.Some? { assert a + (b + r.value) == (a + b) + r.value && "" + r.value == r.value; }
  }

  /** The decoding loop over an index. */
  method PointerToken(token: string) returns (r: Option<string>)
    ensures r == DecodeToken(token)
  {
    var result := "";
    var index := 0;
    PrependTwice("", "", DecodeToken(token));
    assert token[0..] == token;
    while index < |token|
      invariant 0 <= index <= |token|
      invariant DecodeToken(token) == Prepend(result, DecodeToken(token[index..]))
      decreases |token| - index
    {
      var character := token[index];
      assert token[index..][0] == character && token[index..][1..] == token[index + 1..];
      if character != '~' {
        PrependTwice(result, [character], DecodeToken(token[index + 1..]));
        result := result + [character];
        index := index + 1;
      } else {
        if index + 1 >= |token| || (token[index + 1] != '0' && token[index + 1] != '1') { return None; }
        assert token[index..][1] == token[index + 1] && token[index..][2..] == token[index + 2..];
        var unescaped := if token[index + 1] == '0' then "~" else "/";
        PrependTwice(result, unescaped, DecodeToken(token[index + 2..]));
        result := result + unescaped;
        index := index + 2;
      }
    }
    assert token[index..] == "" && result + "" == result;
    r := Some(result);
  }

  // ---------------------------------------------------------------- splitting

  /** `str.split("/")`: never empty. */
  function Split(s: string): (r: seq<string>)
    ensures r != []
  {
    if s == "" then [""]
    else
      var rest := Split(s[1..]);
      if s[0] == '/' then [""] + rest else [[s[0]] + rest[0]] + rest[1..]
  }

  lemma {:induction false} SplitPlain(token: string)
    requires '/' !in token
    ensures Split(token) == [token]
  {
    if token != "" {
      assert forall c | c in token[1..] :: c in token;
      SplitPlain(token[1..]);
      assert token[0] in token && [token[0]] + token[1..] == token;
    }
  }

  lemma {:induction false} SplitCons(token: string, s: string)
    requires '/' !in token
    ensures Split(token + "/" + s) == [token] + Split(s)
  {
    var all := token + "/" + s;
    if token == "" {
      assert all[1..] == s;
    } else {
      assert forall c | c in token[1..] :: c in token;
      assert all[1..] == token[1..] + "/" + s;
      SplitCons(token[1..], s);
      assert token[0] in token && all[0] == token[0] && [token[0]] + token[1..] == token;
      assert ([token[1..]] + Split(s))[1..] == Split(s);
    }
  }

  // ---------------------------------------------------------------- array indices

  predicate IsDigit(c: char) {
    '0' <= c <= '9'
  }

  /** `str` of a natural number. */
  function Decimal(n: nat): string {
    if n < 10 then [('0' as int + n) as char] else Decimal(n / 10) + [('0' as int + n % 10) as char]
  }

  function Digits(s: string): nat
    requires forall c | c in s :: IsDigit(c)
  {
    if s == "" then 0
    else
      assert s[|s| - 1] in s && IsDigit(s[|s| - 1]);
      Digits(s[..|s| - 1]) * 10 + (s[|s| - 1] as int - '0' as int)
  }

  /** `token.isdecimal()` and `int(token)`, for ASCII digits; leading zeros are accepted. */
  function ParseIndex(token: string): Option<nat> {
    if token != "" && forall c | c in token :: IsDigit(c) then Some(Digits(token)) else None
  }

  lemma {:induction false} DecimalRoundTrip(n: nat)
    ensures ParseIndex(Decimal(n)) == Some(n)
    ensures '~' !in Decimal(n) && '/' !in Decimal(n)
  {
    if n < 10 {
      var s := Decimal(n);
      assert s == [('0' as int + n) as char] && s[..0] == "";
      assert forall c | c in s :: c == s[0];
      assert Digits(s) == n;
    } else {
      DecimalRoundTrip(n / 10);
      var s := Decimal(n);
      assert s[..|s| - 1] == Decimal(n / 10);
      assert s[|s| - 1] == ('0' as int + n % 10) as char;
      assert forall c | c in s :: c in Decimal(n / 10) || c == s[|s| - 1];
    }
  }

  /** An array index of section 4 of RFC 6901: no leading zero. */
  predicate IsRfcIndex(token: string) {
    token != "" && (token[0] == '0' ==> |token| == 1) && forall c | c in token :: IsDigit(c)
  }

  lemma {:induction false} DecimalLeads(n: nat)
    ensures Decimal(n) != "" && (Decimal(n)[0] == '0' ==> n == 0)
  {
    if n >= 10 { DecimalLeads(n / 10); }
  }

  lemma {:induction false} DigitsDecimal(token: string)
    requires IsRfcIndex(token)
    ensures Decimal(Digits(token)) == token
    ensures token[0] != '0' ==> Digits(token) > 0
  {
    var front, last := token[..|token| - 1], token[|token| - 1];
    assert last in token && token[0] in token;
    assert token == front + [last];
    if front == "" {
      assert Digits(front) == 0;
      assert token == [last];
    } else {
      assert forall c | c in front :: c in token;
      DigitsDecimal(front);
      var n := Digits(front);
      assert Digits(token) == n * 10 + (last as int - '0' as int);
      assert Digits(token) / 10 == n && Digits(token) % 10 == last as int - '0' as int;
    }
  }

  /** Of the tokens accepted as an index, those RFC 6901 allows are exactly the canonical decimals. */
  lemma AcceptedIndex(token: string)
    requires ParseIndex(token).Some?
    ensures IsRfcIndex(token) <==> token == Decimal(ParseIndex(token).value)
  {
    var n := ParseIndex(token).value;
    if IsRfcIndex(token) {
      DigitsDecimal(token);
    } else {
      DecimalLeads(n);
      assert Decimal(0) == "0";
    }
  }

  // ---------------------------------------------------------------- targets

  /** One step of `_pointer_target`. */
  function Step(current: Json, token: string): Option<Json> {
    match DecodeToken(token)
    case None => None
    case Some(name) =>
      match current
      case Obj(fields) => Get(fields, name)
      case Arr(items) =>
        (match ParseIndex(name)
         case Some(i) => if i < |items| then Some(items[i]) else None
         case None => None)
      case _ => None
  }

  function Descend(current: Json, tokens: seq<string>): Option<Json> {
    if tokens == [] then Some(current)
    else
      match Step(current, tokens[0])
      case None => None
      case Some(next) => Descend(next, tokens[1..])
  }

  function RemovePrefix(pointer: string): string {
    if pointer != "" && pointer[0] == '/' then pointer[1..] else pointer
  }

  /** `_pointer_target`; `None` when it raises. */
  function PointerTarget(root: Json, pointer: string): Option<Json> {
    if pointer == "" then Some(root) else Descend(root, Split(RemovePrefix(pointer)))
  }

  /** The loop of `_pointer_target` over the tokens. */
  method FindTarget(root: Json, pointer: string) returns (r: Option<Json>)
    ensures r == PointerTarget(root, pointer)
  {
    if pointer == "" { return Some(root); }
    var current := root;
    var tokens := Split(RemovePrefix(pointer));
    for i := 0 to |tokens|
      invariant Descend(root, tokens) == Descend(current, tokens[i..])
    {
      var token := PointerToken(tokens[i]);
      assert tokens[i..][0] == tokens[i] && tokens[i..][1..] == tokens[i + 1..];
      if token == None { return None; }
      var next := Step(current, tokens[i]);
      if next == None { return None; }
      current := next.value;
    }
    r := Some(current);
  }

  lemma {:induction false} DescendAppend(current: Json, a: seq<string>, b: seq<string>)
    ensures Descend(current, a + b) ==
      match Descend(current, a) case None => None case Some(next) => Descend(next, b)
  {
    if a == [] {
      assert a + b == b;
    } else {
      assert (a + b)[1..] == a[1..] + b;
      match Step(current, a[0]) {
        case None =>
        case Some(next) => DescendAppend(next, a[1..], b);
      }
    }
  }

  lemma DescendOne(v: Json, t: string)
    ensures Descend(v, [t]) == Step(v, t)
  {
    assert [t][1..] == [];
  }

  /** A leading zero is accepted where RFC 6901 allows none. */
  lemma LeadingZeroAccepted()
    ensures PointerTarget(Arr([Null, Num(1)]), "/01") == Some(Num(1)) && !IsRfcIndex("01")
  {
    var token := "01";
    assert "/01"[1..] == token;
    SplitPlain(token);
    assert token[1..] == "1" && "1"[1..] == "" && token[..1] == "0" && "0"[..0] == "";
    DecodePlain(token);
    assert Digits("0") == 0 && Digits(token) == 1;
    DescendOne(Arr([Null, Num(1)]), token);
    assert Step(Arr([Null, Num(1)]), token) == Some(Num(1));
  }

  /** The pointer "/" names the member with the empty name. */
  lemma SlashTarget(v: Json)
    ensures PointerTarget(v, "/") == if v.Obj? then Get(v.fields, "") else None
  {
    assert "/"[1..] == "";
    DescendOne(v, "");
    assert ParseIndex("") == None;
  }
}
