/** Address generation of the `/api/create-email` route of server.js:
    `generateUsername` and the domain pick. `Math.random()` is replaced by a
    sequence of draws, each a real number in [0, 1), consumed in call order. */
module Addresses {
  import opened Wrappers

  /** The characters `generateUsername` appends. */
  const Chars: string := "abcdefghijklmnopqrstuvwxyz0123456789"

  /** `DOMAINS`: the mailbox domains of the provider. */
  function Domains(): seq<string> {
    [
      "1secmail.com", "1secmail.org", "1secmail.net",
      "esiix.com", "wwjmp.com", "xojxe.com", "yoggm.com"
    ]
  }

  function Max(a: int, b: int): int {
    if a >= b then a else b
  }

  /** Every draw is a possible value of `Math.random()`. */
  predicate ValidDraws(draws: seq<real>) {
    forall i :: 0 <= i < |draws| ==> 0.0 <= draws[i] < 1.0
  }

  /** `Math.floor(r * n)`: an index into a list of `n` elements. */
  function Pick(r: real, n: nat): (k: nat)
    requires 0.0 <= r < 1.0 && n > 0
    ensures k < n
  {
    var x := r * n as real;
    assert 0.0 <= x < n as real;
    x.Floor
  }

  /** `[a-z0-9]`: the characters listed in `Chars`. */
  predicate IsUsernameChar(c: char) {
    'a' <= c <= 'z' || '0' <= c <= '9'
  }

  lemma CharsAreUsernameChars()
    ensures forall j :: 0 <= j < |Chars| ==> IsUsernameChar(Chars[j])
  {
  }

  /** `chars[Math.floor(r * chars.length)]`: the character a draw picks. */
  function CharFor(r: real): (c: char)
    requires 0.0 <= r < 1.0
    ensures IsUsernameChar(c)
  {
    CharsAreUsernameChars();
    Chars[Pick(r, |Chars|)]
  }

  /** `prefix || ''`. */
  function Base(prefix: Option<string>): string {
    if Truthy(prefix) then prefix.value else ""
  }

  /** `s.length`: JavaScript counts UTF-16 code units, so a character outside
      the Basic Multilingual Plane counts twice. */
  function Utf16Length(s: string): nat {
    if s == [] then 0
    else (if s[0] as int >= 0x1_0000 then 2 else 1) + Utf16Length(s[1..])
  }

  lemma {:induction false} Utf16LengthAppend(a: string, b: string)
    ensures Utf16Length(a + b) == Utf16Length(a) + Utf16Length(b)
  {
    if a == [] {
      assert a + b == b;
    } else {
      assert (a + b)[0] == a[0] && (a + b)[1..] == a[1..] + b;
      Utf16LengthAppend(a[1..], b);
    }
  }

  /** Every character of `[a-z0-9]` is one UTF-16 code unit. */
  lemma AppendCharLength(s: string, c: char)
    requires IsUsernameChar(c)
    ensures Utf16Length(s + [c]) == Utf16Length(s) + 1
  {
    Utf16LengthAppend(s, [c]);
    assert c as int < 0x1_0000;
    assert Utf16Length([c]) == 1 + Utf16Length([c][1..]);
    assert [c][1..] == [];
  }

  /** `Math.max(8 - result.length, 4)`: how many characters are appended. */
  function Appended(base: string): nat {
    Max(8 - Utf16Length(base), 4)
  }

  /** A prefix outside the Basic Multilingual Plane counts twice: one emoji
      leaves room for six appended characters, not seven. */
  lemma AstralPrefixCountsTwice()
    ensures Appended("\U{1F600}") == 6
    ensures Appended("ab") == 6
  {
    assert Utf16Length("\U{1F600}") == 2 + Utf16Length("\U{1F600}"[1..]);
    assert Utf16Length("ab") == 1 + Utf16Length("ab"[1..]);
    assert Utf16Length("ab"[1..]) == 1 + Utf16Length("ab"[2..]);
  }

  /** After `i` turns of the `generateUsername` loop: the base followed by
      the characters the first `i` draws pick. */
  predicate Extends(base: string, username: string, draws: seq<real>, i: nat) {
    && ValidDraws(draws) && i <= |draws|
    && |username| == |base| + i
    && username[..|base|] == base
    && Utf16Length(username) == Utf16Length(base) + i
    && forall k :: |base| <= k < |username| ==> username[k] == CharFor(draws[k - |base|])
  }

  /** Appending to a username keeps its prefix. */
  lemma AppendKeepsPrefix(base: string, username: string, c: char)
    requires |base| <= |username| && username[..|base|] == base
    ensures (username + [c])[..|base|] == base
  {
    assert (username + [c])[..|base|] == username[..|base|];
  }

  /** Appending the character the `i`-th draw picks keeps every appended
      character the one its draw picks. */
  lemma AppendKeepsPicks(base: string, username: string, draws: seq<real>, i: nat)
    requires ValidDraws(draws) && i < |draws| && |username| == |base| + i
    requires forall k :: |base| <= k < |username| ==> username[k] == CharFor(draws[k - |base|])
    ensures var u := username + [CharFor(draws[i])];
      forall k :: |base| <= k < |u| ==> u[k] == CharFor(draws[k - |base|])
  {
    var u := username + [CharFor(draws[i])];
    forall k | |base| <= k < |u| ensures u[k] == CharFor(draws[k - |base|]) {
      if k < |username| {
        assert u[k] == username[k];
      } else {
        assert u[k] == CharFor(draws[i]);
      }
    }
  }

  /** One turn of the `generateUsername` loop keeps the username's shape. */
  lemma ExtendUsername(base: string, username: string, draws: seq<real>, i: nat)
    requires Extends(base, username, draws, i) && i < |draws|
    ensures Extends(base, username + [CharFor(draws[i])], draws, i + 1)
  {
    AppendCharLength(username, CharFor(draws[i]));
    AppendKeepsPrefix(base, username, CharFor(draws[i]));
    AppendKeepsPicks(base, username, draws, i);
  }

  /** `generateUsername()`: the prefix followed by randomly chosen characters. */
  method GenerateUsername(prefix: Option<string>, draws: seq<real>) returns (username: string)
    requires ValidDraws(draws) && |draws| >= Appended(Base(prefix))
    ensures |username| == |Base(prefix)| + Appended(Base(prefix))
    ensures Utf16Length(username) == Max(8, Utf16Length(Base(prefix)) + 4)
    ensures username[..|Base(prefix)|] == Base(prefix)
    ensures forall k :: |Base(prefix)| <= k < |username| ==>
      username[k] == CharFor(draws[k - |Base(prefix)|])
    ensures Extends(Base(prefix), username, draws, Appended(Base(prefix)))
  {
    var base := Base(prefix);
    username := base;
    var length := 8 - Utf16Length(username);
    var i := 0;
    while i < Max(length, 4)
      invariant i <= Max(length, 4)
      invariant Extends(base, username, draws, i)
    {
      ExtendUsername(base, username, draws, i);
      username := username + [CharFor(draws[i])];
      i := i + 1;
    }
  }

  /** `DOMAINS[Math.floor(Math.random() * DOMAINS.length)]`. */
  function PickDomain(r: real): (d: string)
    requires 0.0 <= r < 1.0
    ensures d in Domains()
  {
    Domains()[Pick(r, |Domains()|)]
  }

  /** The shape of a generated address for the base `base`: the base, then
      `Appended(base)` characters from `Chars`, then `@` and one of the
      domains. */
  predicate Generated(email: string, base: string) {
    var n := |base| + Appended(base);
    && n < |email|
    && email[..|base|] == base
    && (forall k :: |base| <= k < n ==> IsUsernameChar(email[k]))
    && email[n] == '@'
    && email[n + 1..] in Domains()
  }

  /** A username as `generateUsername` builds it, `@`, and a domain of
      `DOMAINS` make a generated address. */
  lemma AddressIsGenerated(base: string, username: string, domain: string, draws: seq<real>)
    requires Extends(base, username, draws, Appended(base))
    requires domain in Domains()
    ensures Generated(username + "@" + domain, base)
  {
    var email := username + "@" + domain;
    var m := |username|;
    assert email[..|base|] == username[..|base|];
    assert email[m + 1..] == domain;
    forall k | |base| <= k < m ensures IsUsernameChar(email[k]) {
      assert email[k] == username[k];
    }
  }

  /** One turn of the `/api/create-email` loop: a username, `@`, and a domain
      picked by the draw after the username's. */
  method GenerateAddress(prefix: Option<string>, draws: seq<real>) returns (email: string)
    requires ValidDraws(draws) && |draws| >= Appended(Base(prefix)) + 1
    ensures Generated(email, Base(prefix))
    ensures email[|Base(prefix)| + Appended(Base(prefix)) + 1..] == PickDomain(draws[Appended(Base(prefix))])
  {
    var base := Base(prefix);
    var username := GenerateUsername(prefix, draws);
    var domain := PickDomain(draws[Appended(base)]);
    email := username + "@" + domain;
    AddressIsGenerated(base, username, domain, draws);
  }

  /** Draws for `left` more addresses cover one address and `left - 1` more. */
  lemma DrawsForOneMore(left: int, width: nat)
    requires left >= 1
    ensures left * width >= width && left * width - width == (left - 1) * width
  {
  }

  /** The `count` field of a `/api/create-email` request: missing, `null`,
      or a number. */
  datatype Count = Absent | Null | Given(n: int)

  /** How often `for (let i = 0; i < count; i++)` runs: the destructuring
      default `1` replaces only a missing field, and `0 < null` is false. */
  function Iterations(count: Count): nat {
    match count
    case Absent => 1
    case Null => 0
    case Given(n) => Max(n, 0)
  }

  /** The loop of `/api/create-email`: `count` addresses (default 1), each a
      generated username, `@`, and a picked domain. */
  method CreateEmails(prefix: Option<string>, count: Count, draws: seq<real>) returns (emails: seq<string>)
    requires ValidDraws(draws)
    requires |draws| >= Iterations(count) * (Appended(Base(prefix)) + 1)
    ensures count.Absent? ==> |emails| == 1
    ensures count.Null? ==> emails == []
    ensures count.Given? ==> |emails| == Max(count.n, 0)
    ensures forall i :: 0 <= i < |emails| ==> Generated(emails[i], Base(prefix))
  {
    var n := Iterations(count);
    var width := Appended(Base(prefix)) + 1;
    emails := [];
    var rest := draws;
    var i := 0;
    while i < n
      invariant 0 <= i <= n
      invariant |emails| == i
      invariant ValidDraws(rest)
      invariant |rest| >= (n - i) * width
      invariant forall j :: 0 <= j < |emails| ==> Generated(emails[j], Base(prefix))
    {
      assert |rest| >= width && |rest| - width >= (n - (i + 1)) * width by {
        DrawsForOneMore(n - i, width);
      }
      var email := GenerateAddress(prefix, rest);
      emails := emails + [email];
      rest := rest[width..];
      i := i + 1;
    }
  }
}
