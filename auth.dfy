/** The auth helpers: hashPassword, checkPassword and createToken.
    bcrypt and JWT signing are foreign libraries; they are replaced here by
    concrete stand-ins that keep exactly the properties the command handlers
    depend on: a stored hash is never the password itself, a hash accepts the
    password it was made from and no other, and a token carries its subject and
    an expiry seven days after issue. */
module Auth {
  import opened Wrappers
  import opened Text

  /** bcrypt's modular-crypt prefix: version 2a at DefaultCost 10. */
  const HashPrefix: string := "$2a$10$"

  function Reverse(s: string): (r: string)
    ensures |r| == |s|
    decreases |s|
  {
    if s == [] then [] else Reverse(s[1..]) + [s[0]]
  }

  /** hashPassword (stand-in for bcrypt.GenerateFromPassword). */
  function Hash(password: string): (h: string)
    ensures h != password
  {
    HashPrefix + Reverse(password)
  }

  /** checkPassword (stand-in for bcrypt.CompareHashAndPassword == nil). */
  function Check(hash: string, password: string): (ok: bool)
    ensures ok ==> hash != password
  {
    hash == Hash(password)
  }

  lemma {:induction false} ReverseInjective(a: string, b: string)
    requires Reverse(a) == Reverse(b)
    ensures a == b
    decreases |a|
  {
    if a != [] {
      var ra, rb := Reverse(a[1..]), Reverse(b[1..]);
      assert Reverse(a) == ra + [a[0]] && Reverse(b) == rb + [b[0]];
      assert a[0] == Reverse(a)[|a| - 1] == b[0];
      assert ra == Reverse(a)[..|a| - 1] == rb;
      ReverseInjective(a[1..], b[1..]);
      assert a == [a[0]] + a[1..] && b == [b[0]] + b[1..];
    }
  }

  /** A stored hash accepts the password it was made from, and only that one. */
  lemma CheckHash(password: string, attempt: string)
    ensures Check(Hash(password), attempt) <==> attempt == password
  {
    if Check(Hash(password), attempt) {
      assert Reverse(password) == Hash(password)[|HashPrefix|..] == Hash(attempt)[|HashPrefix|..] == Reverse(attempt);
      ReverseInjective(password, attempt);
    }
  }

  // ---------- createToken ----------

  /** The "exp" claim is issue time plus 7 * 24 hours, in Unix seconds. */
  const TokenLifetime: int := 7 * 24 * 60 * 60

  /** The two claims a token carries: "sub" (the user id) and "exp". */
  datatype Claims = Claims(sub: nat, exp: int)

  /** The text before and after the first occurrence of c, if there is one. */
  function SplitAt(s: string, c: char): Option<(string, string)>
    decreases |s|
  {
    if s == [] then None
    else if s[0] == c then Some(([], s[1..]))
    else
      match SplitAt(s[1..], c)
      case None => None
      case Some(parts) => Some(([s[0]] + parts.0, parts.1))
  }

  lemma {:induction false} SplitAtFirst(a: string, b: string, c: char)
    requires forall i :: 0 <= i < |a| ==> a[i] != c
    ensures SplitAt(a + [c] + b, c) == Some((a, b))
    decreases |a|
  {
    if a != [] {
      assert (a + [c] + b)[1..] == a[1..] + [c] + b;
      SplitAtFirst(a[1..], b, c);
      assert [a[0]] + a[1..] == a;
    } else {
      assert a + [c] + b == [c] + b;
    }
  }

  /** Reads the claims back out of a token. */
  function DecodeToken(token: string): Option<Claims>
  {
    match SplitAt(token, '.')
    case None => None
    case Some(parts) =>
      if IsDigits(parts.0) && ParseInt(parts.1).Some? then
        Some(Claims(DigitsValue(parts.0), ParseInt(parts.1).value))
      else None
  }

  /** createToken(userID) at Unix time now (stand-in for an HS256-signed JWT):
      the token names the user and expires exactly seven days after issue. */
  function CreateToken(userId: nat, now: int): (token: string)
    ensures DecodeToken(token) == Some(Claims(userId, now + TokenLifetime))
  {
    var sub, exp := NatToString(userId), Itoa(now + TokenLifetime);
    NatToStringValue(userId);
    ParseIntItoa(now + TokenLifetime);
    SplitAtFirst(sub, exp, '.');
    sub + "." + exp
  }
}
