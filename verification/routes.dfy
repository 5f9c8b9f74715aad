/** The request guards and result shaping of the HTTP routes of server.js.
    Each handler is a function from its request fields and the provider's
    answers to the JSON body it sends; status codes appear as the reply's
    variant (`InvalidEmail`, `NoEmails`), timestamps and routing are left out. */
module Routes {
  import opened Wrappers
  import opened Mailbox
  import opened Addresses
  import Registry

  // ---------------------------------------------------------------------------
  // String.prototype.split with a one-character separator
  // ---------------------------------------------------------------------------

  /** `s.split(sep)`: the pieces between separators, from left to right. */
  function Split(s: string, sep: char): (parts: seq<string>)
    ensures |parts| >= 1
    ensures forall i :: 0 <= i < |parts| ==> sep !in parts[i]
  {
    if |s| == 0 then [""]
    else if s[0] == sep then [""] + Split(s[1..], sep)
    else
      var rest := Split(s[1..], sep);
      [[s[0]] + rest[0]] + rest[1..]
  }

  /** `parts.join(sep)`. */
  function Join(parts: seq<string>, sep: char): string
    requires |parts| >= 1
  {
    if |parts| == 1 then parts[0] else parts[0] + [sep] + Join(parts[1..], sep)
  }

  /** Joining the pieces of a split gives the string back. */
  lemma {:induction false} JoinSplit(s: string, sep: char)
    ensures Join(Split(s, sep), sep) == s
  {
    if |s| > 0 {
      JoinSplit(s[1..], sep);
      var rest := Split(s[1..], sep);
      if s[0] == sep {
        assert s == [sep] + s[1..];
      } else if |rest| == 1 {
        assert s == [s[0]] + rest[0];
      } else {
        assert Join(rest, sep) == rest[0] + [sep] + Join(rest[1..], sep);
        assert ([[s[0]] + rest[0]] + rest[1..])[1..] == rest[1..];
        assert s == [s[0]] + s[1..];
      }
    }
  }

  /** Splitting a join of separator-free pieces gives the pieces back. */
  lemma {:induction false} SplitJoin(parts: seq<string>, sep: char)
    requires |parts| >= 1
    requires forall i :: 0 <= i < |parts| ==> sep !in parts[i]
    ensures Split(Join(parts, sep), sep) == parts
    decreases |parts|, |parts[0]|
  {
    var p := parts[0];
    if p == [] {
      if |parts| == 1 {
      } else {
        assert Join(parts, sep) == [sep] + Join(parts[1..], sep);
        SplitJoin(parts[1..], sep);
      }
    } else {
      var shorter := [p[1..]] + parts[1..];
      assert shorter[1..] == parts[1..];
      SplitJoin(shorter, sep);
      if |parts| == 1 {
        assert Join(parts, sep) == [p[0]] + p[1..];
      } else {
        assert Join(parts, sep) == [p[0]] + Join(shorter, sep);
      }
      assert [p[0]] + p[1..] == p;
    }
  }

  /** The `domain` of `const [username, domain] = email.split('@')`:
      undefined when there is no `@`. */
  function DomainOf(email: string): (d: Option<string>)
  {
    var parts := Split(email, '@');
    if |parts| >= 2 then Some(parts[1]) else None
  }

  lemma DomainOfNeedsAt(email: string)
    ensures DomainOf(email).Some? <==> '@' in email
    ensures DomainOf(email).Some? ==> '@' !in DomainOf(email).value
  {
    JoinSplit(email, '@');
  }

  // ---------------------------------------------------------------------------
  // The routes
  // ---------------------------------------------------------------------------

  /** `messages.reverse()`. */
  function Reverse<T>(s: seq<T>): (r: seq<T>)
    ensures |r| == |s|
    ensures forall k :: 0 <= k < |s| ==> r[k] == s[|s| - 1 - k]
  {
    if s == [] then [] else Reverse(s[1..]) + [s[0]]
  }

  datatype MessagesReply = InvalidEmail | Inbox(email: string, messages: seq<Message>, count: nat)

  /** `GET /api/get-messages/:email`: 400 unless the address holds `@`;
      otherwise the fetched messages, newest first, and their number. */
  function GetMessages(email: string, resp: ListResponse): (r: MessagesReply)
    ensures r.InvalidEmail? <==> '@' !in email
    ensures r.Inbox? ==> r.email == email && r.count == |r.messages| == |Normalize(resp)|
    ensures r.Inbox? ==> forall k :: 0 <= k < r.count ==>
      r.messages[k] == Normalize(resp)[r.count - 1 - k]
  {
    if email == "" || '@' !in email then InvalidEmail
    else
      var messages := Reverse(Normalize(resp));
      Inbox(email, messages, |messages|)
  }

  /** The `emails` field of a check request: an array or any other value. */
  datatype EmailsField = NotArray | Array(items: seq<string>)

  datatype CheckResult = CheckResult(email: string, messages: seq<Message>, count: nat, hasOtp: bool)

  datatype CheckReply = NoEmails | Results(results: seq<CheckResult>)

  /** `messages.some(msg => msg.otp)`. */
  predicate SomeOtp(messages: seq<Message>) {
    exists k :: 0 <= k < |messages| && Truthy(messages[k].otp)
  }

  /** Every code a normalised message carries has four to six digits, so it is truthy. */
  lemma NormalisedCodesTruthy(ms: seq<Message>)
    requires forall k :: 0 <= k < |ms| ==> Normalised(ms[k])
    ensures forall k :: 0 <= k < |ms| ==> (ms[k].otp.Some? <==> Truthy(ms[k].otp))
  {
    forall k | 0 <= k < |ms| ensures ms[k].otp.Some? <==> Truthy(ms[k].otp) {
      assert Normalised(ms[k]);
    }
  }

  /** When every present code is truthy, `some(msg => msg.otp)` over the
      reversed list holds exactly when a message carries a code. */
  lemma SomeOtpReversed(ms: seq<Message>)
    requires forall k :: 0 <= k < |ms| ==> (ms[k].otp.Some? <==> Truthy(ms[k].otp))
    ensures SomeOtp(Reverse(ms)) <==> exists m :: m in ms && m.otp.Some?
  {
    var rs := Reverse(ms);
    if SomeOtp(rs) {
      var k :| 0 <= k < |rs| && Truthy(rs[k].otp);
      assert rs[k] == ms[|ms| - 1 - k];
    }
    if m :| m in ms && m.otp.Some? {
      var j :| 0 <= j < |ms| && ms[j] == m;
      assert rs[|ms| - 1 - j] == m;
    }
  }

  /** One entry of the check results. */
  function ResultFor(email: string, resp: ListResponse): (r: CheckResult)
    ensures r.email == email && r.count == |r.messages| == |Normalize(resp)|
    ensures r.messages == Reverse(Normalize(resp))
    ensures r.hasOtp <==> exists m :: m in Normalize(resp) && m.otp.Some?
  {
    NormalizeSpec(resp);
    NormalisedCodesTruthy(Normalize(resp));
    SomeOtpReversed(Normalize(resp));
    var messages := Reverse(Normalize(resp));
    CheckResult(email, messages, |messages|, SomeOtp(messages))
  }

  /** `POST /api/check-emails`: 400 unless `emails` is a non-empty array;
      otherwise one result per address, in request order. Each address's
      provider answers are given, in the same order. */
  function CheckEmails(field: EmailsField, responses: seq<ListResponse>): (r: CheckReply)
    requires field.Array? ==> |responses| == |field.items|
    ensures r.NoEmails? <==> field.NotArray? || |field.items| == 0
    ensures r.Results? ==> |r.results| == |field.items|
    ensures r.Results? ==> forall i :: 0 <= i < |r.results| ==>
      r.results[i] == ResultFor(field.items[i], responses[i])
  {
    if field.NotArray? || |field.items| == 0 then NoEmails
    else Results(seq(|field.items|, i requires 0 <= i < |field.items| => ResultFor(field.items[i], responses[i])))
  }

  datatype VerifyReply = VerifyReply(success: bool, valid: bool, message: string)

  /** `GET /api/verify-email/:email`: the domain must be one of `DOMAINS`;
      then the address is valid exactly when the provider's list request
      succeeds (`providerAnswered`). */
  function VerifyEmail(email: string, providerAnswered: bool): (r: VerifyReply)
    ensures r.success <==> DomainOf(email).Some? && DomainOf(email).value in Domains()
    ensures r.valid <==> r.success && providerAnswered
  {
    var domain := DomainOf(email);
    if !(domain.Some? && domain.value in Domains()) then VerifyReply(false, false, "Invalid domain")
    else if providerAnswered then VerifyReply(true, true, "Email is valid and active")
    else VerifyReply(true, false, "Email does not exist or is not accessible")
  }

  /** The domain of `u@d`, when neither side holds `@`, is `d`. */
  lemma DomainOfJoined(u: string, d: string)
    requires '@' !in u && '@' !in d
    ensures DomainOf(u + "@" + d) == Some(d)
  {
    assert Join([u, d], '@') == u + "@" + d;
    SplitJoin([u, d], '@');
  }

  /** The username part of a generated address holds no `@`. */
  lemma GeneratedUsernameHasNoAt(email: string, base: string)
    requires Generated(email, base) && '@' !in base
    ensures '@' !in email[..|base| + Appended(base)]
  {
    var n := |base| + Appended(base);
    forall k | 0 <= k < n ensures email[k] != '@' {
      if k < |base| {
        assert email[k] == email[..|base|][k];
      } else {
        assert IsUsernameChar(email[k]);
      }
    }
  }

  /** A string is its part before position `n`, the `@` at `n`, and the rest. */
  lemma SplitAtSign(email: string, n: nat)
    requires n < |email| && email[n] == '@'
    ensures email == email[..n] + "@" + email[n + 1..]
  {
    assert email == email[..n] + [email[n]] + email[n + 1..];
  }

  /** No domain of `DOMAINS` holds `@`. */
  lemma DomainsHaveNoAt()
    ensures forall d :: d in Domains() ==> '@' !in d
  {
  }

  /** A generated address whose prefix holds no `@` passes the domain check. */
  lemma GeneratedAddressHasKnownDomain(email: string, base: string)
    requires Generated(email, base) && '@' !in base
    ensures VerifyEmail(email, true).valid
  {
    var n := |base| + Appended(base);
    var d := email[n + 1..];
    assert '@' !in d by { DomainsHaveNoAt(); }
    GeneratedUsernameHasNoAt(email, base);
    SplitAtSign(email, n);
    DomainOfJoined(email[..n], d);
  }

  /** `DELETE /api/delete-email/:email`: stop polling the address. */
  function DeleteEmail(c: Registry.Checkers, email: string): (r: (Registry.Checkers, string))
    ensures email !in r.0.active
    ensures r.0.active.Keys == c.active.Keys - {email}
    ensures forall e :: e in r.0.active ==> r.0.active[e] == c.active[e]
    ensures Registry.Stop(r.0, email) == r.0
    ensures Registry.Valid(c) ==> Registry.Valid(r.0)
    ensures Registry.Valid(c) && email in c.active ==> c.active[email] !in r.0.running
  {
    (Registry.Stop(c, email), "Stopped checking emails for " + email)
  }

  datatype Stats = Stats(activeAccounts: nat, domainsAvailable: nat, checkIntervalSeconds: int)

  /** `GET /api/stats`. */
  function GetStats(c: Registry.Checkers): (r: Stats)
    ensures Registry.Valid(c) ==> r.activeAccounts == |c.running|
    ensures r.domainsAvailable == 7 && r.checkIntervalSeconds == 5
  {
    var r := Stats(Registry.ActiveAccounts(c), |Domains()|, Registry.CheckInterval / 1000);
    assert Registry.Valid(c) ==> r.activeAccounts == |c.running| by {
      if Registry.Valid(c) {
        Registry.OneTimerPerAddress(c);
      }
    }
    r
  }
}
