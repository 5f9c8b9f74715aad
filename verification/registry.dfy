/** The poll registry of server.js: `activeCheckers`, a map from address to
    the handle of its recurring check, driven by `startEmailChecking` and
    `stopEmailChecking`.

    Besides the map, the state records the intervals the JavaScript runtime is
    still running (`setInterval` adds one, `clearInterval` removes one) and the
    next fresh handle, so that "one running timer per tracked address" can be
    stated. Timing, the 5 s cadence and the asynchronous ticks themselves are
    not modelled. */
module Registry {
  import opened Mailbox

  /** An interval handle; every `setInterval` returns a fresh one. */
  type Handle = nat

  /** `CHECK_INTERVAL`, in milliseconds. */
  const CheckInterval: nat := 5000

  datatype Checkers = Checkers(active: map<string, Handle>, running: set<Handle>, next: Handle)

  /** No two addresses share a timer. */
  predicate Injective(m: map<string, Handle>) {
    forall a, b :: a in m && b in m && a != b ==> m[a] != m[b]
  }

  /** The running intervals are exactly the registered ones, one per address,
      and every handle issued so far is below `next`. */
  predicate Valid(c: Checkers) {
    && c.running == c.active.Values
    && Injective(c.active)
    && forall h :: h in c.running ==> h < c.next
  }

  /** The registry before any address is tracked. */
  function Empty(): (c: Checkers)
    ensures Valid(c) && |c.active| == 0
  {
    Checkers(map[], {}, 0)
  }

  /** `startEmailChecking(email)`: clear the address's current interval, if
      any, then register a fresh one for it; last writer wins. */
  function Start(c: Checkers, email: string): (c': Checkers)
    ensures email in c'.active && c'.active[email] == c.next
    ensures Valid(c) ==> c'.active[email] !in c.running
    ensures c'.active[email] in c'.running
    ensures c'.active.Keys == c.active.Keys + {email}
    ensures forall e :: e in c.active && e != email ==> c'.active[e] == c.active[e]
    ensures Valid(c) && email in c.active ==> c.active[email] !in c'.running
    ensures Valid(c) ==> Valid(c')
  {
    var running := if email in c.active then c.running - {c.active[email]} else c.running;
    var h := c.next;
    Checkers(c.active[email := h], running + {h}, h + 1)
  }

  /** `stopEmailChecking(email)`: clear and forget the address's interval; a
      no-op for an address that is not tracked. */
  function Stop(c: Checkers, email: string): (c': Checkers)
    ensures email !in c'.active
    ensures c'.active.Keys == c.active.Keys - {email}
    ensures forall e :: e in c'.active ==> c'.active[e] == c.active[e]
    ensures email !in c.active ==> c' == c
    ensures Valid(c) && email in c.active ==> c.active[email] !in c'.running
    ensures Valid(c) ==> Valid(c')
  {
    if email in c.active then
      Checkers(c.active - {email}, c.running - {c.active[email]}, c.next)
    else c
  }

  /** `activeCheckers.size`, reported as `activeAccounts`. */
  function ActiveAccounts(c: Checkers): nat {
    |c.active|
  }

  /** The interval callback: a tick of a running timer hands a non-empty
      batch of messages to the callback, when one was given. */
  predicate TickDelivers(c: Checkers, h: Handle, messages: seq<Message>, hasCallback: bool) {
    h in c.running && |messages| > 0 && hasCallback
  }

  // ---------------------------------------------------------------------------
  // Properties
  // ---------------------------------------------------------------------------

  lemma {:induction false} InjectiveValuesCount(m: map<string, Handle>)
    requires Injective(m)
    ensures |m.Values| == |m.Keys|
    decreases |m.Keys|
  {
    if m.Keys != {} {
      var k :| k in m.Keys;
      var m' := m - {k};
      assert m'.Keys == m.Keys - {k};
      assert m'.Values == m.Values - {m[k]} by {
        forall v | v in m.Values - {m[k]} ensures v in m'.Values {
          var a :| a in m && m[a] == v;
          assert a != k && a in m';
        }
      }
      InjectiveValuesCount(m');
    }
  }

  /** In a valid registry there is exactly one running timer per tracked
      address, so `activeAccounts` also counts the running intervals. */
  lemma OneTimerPerAddress(c: Checkers)
    requires Valid(c)
    ensures |c.running| == ActiveAccounts(c)
  {
    InjectiveValuesCount(c.active);
  }

  /** Starting the same address twice leaves the tracked set and the number
      of running timers as after one start; the first timer is cleared. */
  lemma StartTwiceLikeOnce(c: Checkers, email: string)
    requires Valid(c)
    ensures var once := Start(c, email);
      var twice := Start(once, email);
      && twice.active.Keys == once.active.Keys
      && |twice.running| == |once.running| == ActiveAccounts(once)
      && once.active[email] !in twice.running
  {
    var once := Start(c, email);
    var twice := Start(once, email);
    OneTimerPerAddress(once);
    OneTimerPerAddress(twice);
  }

  /** A stopped or replaced timer never hands messages to the callback again. */
  lemma ClearedTimerIsSilent(c: Checkers, email: string, messages: seq<Message>, hasCallback: bool)
    requires Valid(c) && email in c.active
    ensures !TickDelivers(Stop(c, email), c.active[email], messages, hasCallback)
    ensures !TickDelivers(Start(c, email), c.active[email], messages, hasCallback)
  {
  }

  /** Stopping an address that is not tracked changes nothing; stopping after
      starting it removes it again without touching the other addresses. */
  lemma StopUndoesStart(c: Checkers, email: string)
    requires Valid(c) && email !in c.active
    ensures Stop(c, email) == c
    ensures Stop(Start(c, email), email).active == c.active
    ensures Stop(Start(c, email), email).running == c.running
  {
    var s := Start(c, email);
    assert s.running == c.running + {c.next};
    assert c.next !in c.running;
  }
}
