/** Signed control-plane responses: `VerifyBodyHash`, the replay cache and `readSignedResponseBody`.
    Times are integers in nanoseconds. */
module Replay {
  import opened Common
  import opened Text
  import opened Numbers

  // ---------------------------------------------------------------- the signature check

  datatype Verdict =
    | Accepted | Unsigned | InvalidSignature | InvalidNonce | InvalidTimestamp | Outdated | InvalidBodyHash

  datatype Response = Response(uri: string, timestamp: string, nonce: string, bodyHash: string, signature: string,
                               actualBodyHash: string)

  /** The keyed hash of a canonical text under the agent's token. */
  type Mac = (string, string) -> string

  const SECOND := 1_000_000_000

  /** `CanonicalString` for the method name RESPONSE. */
  function Canonical(r: Response): string {
    "RESPONSE" + "\n" + TrimSpace(r.uri) + "\n" + TrimSpace(r.timestamp) + "\n" + TrimSpace(r.nonce) + "\n"
      + TrimSpace(r.bodyHash)
  }

  /** `VerifyBodyHash` with a positive window */
  function Verify(mac: Mac, token: string, r: Response, now: int, window: int): Verdict {
    var ts := ParseInt(TrimSpace(r.timestamp));
    if TrimSpace(r.signature) == "" || TrimSpace(r.timestamp) == "" || TrimSpace(r.nonce) == ""
      || TrimSpace(r.bodyHash) == "" then
      Unsigned
    else if TrimSpace(token) == "" then InvalidSignature
    else if !(12 <= Utf8Size(TrimSpace(r.nonce)) <= 128) then InvalidNonce
    else if ts.None? || ts.value <= 0 then InvalidTimestamp
    else if ts.value * SECOND < now - window || ts.value * SECOND > now + window then Outdated
    else if TrimSpace(r.bodyHash) != r.actualBodyHash then InvalidBodyHash
    else if TrimSpace(r.signature) != "v1=" + mac(token, Canonical(r)) then InvalidSignature
    else Accepted
  }

  /** When the response says it was issued. */
  function Issued(r: Response): int {
    var ts := ParseInt(TrimSpace(r.timestamp));
    if ts.Some? then ts.value * SECOND else 0
  }

  predicate OneLine(s: string) {
    '\n' !in s
  }

  lemma SplitFive(a: string, b: string, c: string, d: string, e: string, sep: char)
    requires sep !in a && sep !in b && sep !in c && sep !in d && sep !in e
    ensures Split(a + [sep] + b + [sep] + c + [sep] + d + [sep] + e, sep) == [a, b, c, d, e]
  {
    SplitWhole(a, sep);
    SplitWhole(b, sep);
    SplitWhole(c, sep);
    SplitWhole(d, sep);
    SplitWhole(e, sep);
    SplitAppend(a, b, sep);
    SplitAppend(a + [sep] + b, c, sep);
    SplitAppend(a + [sep] + b + [sep] + c, d, sep);
    SplitAppend(a + [sep] + b + [sep] + c + [sep] + d, e, sep);
  }

  lemma CanonicalParts(r: Response)
    requires OneLine(TrimSpace(r.uri)) && OneLine(TrimSpace(r.timestamp)) && OneLine(TrimSpace(r.nonce))
             && OneLine(TrimSpace(r.bodyHash))
    ensures Split(Canonical(r), '\n')
            == ["RESPONSE", TrimSpace(r.uri), TrimSpace(r.timestamp), TrimSpace(r.nonce), TrimSpace(r.bodyHash)]
  {
    var a, u, t, n, b := "RESPONSE", TrimSpace(r.uri), TrimSpace(r.timestamp), TrimSpace(r.nonce),
      TrimSpace(r.bodyHash);
    SplitFive(a, u, t, n, b, '\n');
  }

  /** One signed text stands for one request, time, nonce and body: the joined form is injective on header values. */
  lemma CanonicalInjective(r: Response, q: Response)
    requires OneLine(TrimSpace(r.uri)) && OneLine(TrimSpace(r.timestamp)) && OneLine(TrimSpace(r.nonce))
             && OneLine(TrimSpace(r.bodyHash))
    requires OneLine(TrimSpace(q.uri)) && OneLine(TrimSpace(q.timestamp)) && OneLine(TrimSpace(q.nonce))
             && OneLine(TrimSpace(q.bodyHash))
    requires Canonical(r) == Canonical(q)
    ensures TrimSpace(r.uri) == TrimSpace(q.uri) && TrimSpace(r.timestamp) == TrimSpace(q.timestamp)
    ensures TrimSpace(r.nonce) == TrimSpace(q.nonce) && TrimSpace(r.bodyHash) == TrimSpace(q.bodyHash)
  {
    CanonicalParts(r);
    CanonicalParts(q);
  }

  /** A response is accepted if and only if it carries the MAC of its canonical text and the hash of its actual body,
      the agent has a token, the nonce has 12 to 128 octets, and the time lies within one window of the clock. */
  lemma AcceptedIff(mac: Mac, token: string, r: Response, now: int, window: int)
    ensures Verify(mac, token, r, now, window) == Accepted <==>
              && TrimSpace(r.signature) == "v1=" + mac(token, Canonical(r))
              && TrimSpace(r.bodyHash) == r.actualBodyHash != ""
              && TrimSpace(token) != "" && 12 <= Utf8Size(TrimSpace(r.nonce)) <= 128
              && ParseInt(TrimSpace(r.timestamp)).Some? && Issued(r) > 0 && now - window <= Issued(r) <= now + window
  {
    assert |"v1=" + mac(token, Canonical(r))| >= 3;
    assert Utf8Size("") == 0 && ParseInt("").None?;
  }

  predicate OneLineHeaders(r: Response) {
    && OneLine(TrimSpace(r.uri)) && OneLine(TrimSpace(r.timestamp)) && OneLine(TrimSpace(r.nonce))
    && OneLine(TrimSpace(r.bodyHash))
  }

  predicate Collides(mac: Mac, token: string, r: Response, q: Response) {
    Canonical(r) != Canonical(q) && mac(token, Canonical(r)) == mac(token, Canonical(q))
  }

  /** One signature stands for one response: two accepted ones with the same signature agree in request, time, nonce and
      actual body unless the MAC collides on their texts. */
  lemma SignatureStandsForOne(mac: Mac, token: string, r: Response, q: Response, t: int, u: int, window: int)
    requires Verify(mac, token, r, t, window) == Accepted && Verify(mac, token, q, u, window) == Accepted
    requires OneLineHeaders(r) && OneLineHeaders(q)
    ensures TrimSpace(r.signature) == TrimSpace(q.signature) <==>
              || Collides(mac, token, r, q)
              || (&& TrimSpace(r.uri) == TrimSpace(q.uri) && TrimSpace(r.timestamp) == TrimSpace(q.timestamp)
                  && TrimSpace(r.nonce) == TrimSpace(q.nonce) && r.actualBodyHash == q.actualBodyHash)
  {
    AcceptedIff(mac, token, r, t, window);
    AcceptedIff(mac, token, q, u, window);
    var x, y := mac(token, Canonical(r)), mac(token, Canonical(q));
    assert ("v1=" + x)[3..] == x && ("v1=" + y)[3..] == y;
    if Canonical(r) == Canonical(q) {
      CanonicalInjective(r, q);
    }
  }

  // ---------------------------------------------------------------- the cache

  type Entries = map<string, int>

  function Live(entries: Entries, now: int): Entries {
    map k | k in entries && entries[k] > now :: entries[k]
  }

  /** What `accept` answers for a trimmed key, and the entries it leaves. */
  predicate Free(entries: Entries, k: string, now: int) {
    k != "" && k !in Live(entries, now)
  }

  function Recorded(entries: Entries, window: int, k: string, now: int): Entries {
    if k == "" then entries
    else if k in Live(entries, now) then Live(entries, now)
    else Live(entries, now)[k := now + window]
  }

  predicate Answer(entries: Entries, key: string, now: int) {
    Free(entries, TrimSpace(key), now)
  }

  function Left(entries: Entries, window: int, key: string, now: int): Entries {
    Recorded(entries, window, TrimSpace(key), now)
  }

  /** `responseReplayCache` */
  class Cache {
    const window: int
    var entries: Entries

    /** `newResponseReplayCache`: a missing window means five minutes. */
    constructor (window: int)
      ensures this.window == if window <= 0 then 300 * SECOND else window
      ensures this.window > 0 && entries == map[]
    {
      this.window := if window <= 0 then 300 * SECOND else window;
      entries := map[];
    }

    /** `accept`: drop what has expired, then refuse a known key or record a new one. */
    method Accept(key: string, now: int) returns (ok: bool)
      modifies this
      ensures ok == old(Answer(entries, key, now))
      ensures entries == old(Left(entries, window, key, now))
    {
      var k := TrimSpace(key);
      if k == "" {
        return false;
      }
      var todo := entries.Keys;
      while todo != {}
        invariant todo <= old(entries).Keys
        invariant entries.Keys <= old(entries).Keys
        invariant forall x :: x in old(entries) && x in todo ==> x in entries
        invariant forall x :: x in old(entries) && x !in todo ==> (x in entries <==> old(entries)[x] > now)
        invariant forall x :: x in entries ==> entries[x] == old(entries)[x]
        decreases todo
      {
        var existing :| existing in todo;
        if !(entries[existing] > now) {
          entries := entries - {existing};
        }
        todo := todo - {existing};
      }
      assert entries == Live(old(entries), now);
      if k in entries {
        return false;
      }
      entries := entries[k := now + window];
      return true;
    }
  }

  // ---------------------------------------------------------------- whole runs

  /** One received response; `verifiedAt` and `acceptedAt` are the two clock readings made for it. */
  datatype Event = Event(response: Response, verifiedAt: int, acceptedAt: int)

  function ReplayKey(r: Response): string {
    r.uri + ":" + TrimSpace(r.nonce)
  }

  // ---------------------------------------------------------------- what the cache sees of a run

  /** A response as the cache sees it: its trimmed key, whether its signature was accepted, and the time. */
  datatype Seen = Seen(key: string, valid: bool, at: int)

  predicate TakesSeen(entries: Entries, s: Seen) {
    s.valid && Free(entries, s.key, s.at)
  }

  function Next(entries: Entries, s: Seen, window: int): Entries {
    if s.valid then Recorded(entries, window, s.key, s.at) else entries
  }

  /** The cache after the first `m` responses. */
  function Cached(seen: seq<Seen>, m: nat, window: int): Entries
    requires m <= |seen|
  {
    if m == 0 then map[] else Next(Cached(seen, m - 1, window), seen[m - 1], window)
  }

  predicate InOrder(seen: seq<Seen>) {
    forall i, j :: 0 <= i < j < |seen| ==> seen[i].at <= seen[j].at
  }

  /** The key is cached until `expiry` at least. */
  predicate Holds(entries: Entries, k: string, expiry: int) {
    k in entries && entries[k] >= expiry
  }

  /** A response can only remove a key whose expiry has come. */
  lemma NextKeeps(entries: Entries, s: Seen, window: int, k: string, expiry: int)
    requires window > 0 && Holds(entries, k, expiry)
    ensures Holds(Next(entries, s, window), k, expiry) || s.at >= expiry
  {
  }

  lemma {:induction false} HeldAlong(seen: seq<Seen>, window: int, i: nat, m: nat, k: string, expiry: int)
    requires window > 0 && InOrder(seen) && 0 < i <= m <= |seen| && Holds(Cached(seen, i, window), k, expiry)
    ensures Holds(Cached(seen, m, window), k, expiry) || seen[m - 1].at >= expiry
    decreases m
  {
    if m > i {
      HeldAlong(seen, window, i, m - 1, k, expiry);
      if Holds(Cached(seen, m - 1, window), k, expiry) {
        NextKeeps(Cached(seen, m - 1, window), seen[m - 1], window, k, expiry);
      }
    }
  }

  lemma {:induction false} BoundsAlong(seen: seq<Seen>, window: int, m: nat, k: string)
    requires window > 0 && InOrder(seen) && 0 < m <= |seen| && k in Cached(seen, m, window)
    ensures Cached(seen, m, window)[k] <= seen[m - 1].at + window
    ensures TakesSeen(Cached(seen, m - 1, window), seen[m - 1]) ==> Cached(seen, m, window)[k] > seen[m - 1].at
    decreases m
  {
    if m > 1 && k in Cached(seen, m - 1, window) {
      BoundsAlong(seen, window, m - 1, k);
    }
  }

  lemma SpacedAlong(seen: seq<Seen>, window: int, i: nat, j: nat)
    requires window > 0 && InOrder(seen) && i < j < |seen| && seen[i].key == seen[j].key
    requires TakesSeen(Cached(seen, i, window), seen[i]) && TakesSeen(Cached(seen, j, window), seen[j])
    ensures seen[j].at >= seen[i].at + window
  {
    HeldAlong(seen, window, i + 1, j, seen[i].key, seen[i].at + window);
  }

  // ---------------------------------------------------------------- whole runs of the receiver

  datatype Receiver = Receiver(mac: Mac, token: string, window: int) {

    /** `readSignedResponseBody`: the signature check, then the cache. */
    predicate Takes(entries: Entries, e: Event) {
      && Verify(mac, token, e.response, e.verifiedAt, window) == Accepted
      && Answer(entries, ReplayKey(e.response), e.acceptedAt)
    }

    function See(e: Event): Seen {
      Seen(TrimSpace(ReplayKey(e.response)), Verify(mac, token, e.response, e.verifiedAt, window) == Accepted,
        e.acceptedAt)
    }

    function Sees(run: seq<Event>): (seen: seq<Seen>)
      ensures |seen| == |run| && forall i :: 0 <= i < |run| ==> seen[i] == See(run[i])
    {
      seq(|run|, i requires 0 <= i < |run| => See(run[i]))
    }

    /** The cache after the first `m` responses of a run. */
    function After(run: seq<Event>, m: nat): Entries
      requires m <= |run|
    {
      Cached(Sees(run), m, window)
    }

    predicate Accepts(run: seq<Event>, i: nat)
      requires i < |run|
    {
      Takes(After(run, i), run[i])
    }

    ghost predicate Monotone(run: seq<Event>) {
      && (forall i :: 0 <= i < |run| ==> run[i].verifiedAt <= run[i].acceptedAt)
      && (forall i, j :: 0 <= i < j < |run| ==> run[i].acceptedAt <= run[j].verifiedAt)
    }

    lemma SeenInOrder(run: seq<Event>)
      requires Monotone(run)
      ensures InOrder(Sees(run))
    {
      forall i, j | 0 <= i < j < |run|
        ensures Sees(run)[i].at <= Sees(run)[j].at
      {
        assert run[i].acceptedAt <= run[j].verifiedAt <= run[j].acceptedAt;
      }
    }

    /** Every cached expiry lies at most one window ahead of the clock; right after an accepted response it also
        lies strictly ahead of it. */
    lemma ExpiryBounds(run: seq<Event>, m: nat, k: string)
      requires window > 0 && Monotone(run) && 0 < m <= |run| && k in After(run, m)
      ensures After(run, m)[k] <= run[m - 1].acceptedAt + window
      ensures Accepts(run, m - 1) ==> After(run, m)[k] > run[m - 1].acceptedAt
    {
      SeenInOrder(run);
      BoundsAlong(Sees(run), window, m, k);
    }

    /** A cached key stays cached until its expiry has come. */
    lemma {:induction false} KeyStaysCached(run: seq<Event>, i: nat, m: nat, k: string, expiry: int)
      requires window > 0 && Monotone(run) && 0 < i <= m <= |run|
      requires Holds(After(run, i), k, expiry)
      ensures Holds(After(run, m), k, expiry) || run[m - 1].acceptedAt >= expiry
    {
      SeenInOrder(run);
      HeldAlong(Sees(run), window, i, m, k, expiry);
    }

    /** Two acceptances of one key are at least one window apart. */
    lemma AcceptancesAreSpaced(run: seq<Event>, i: nat, j: nat)
      requires window > 0 && Monotone(run) && i < j < |run| && Accepts(run, i) && Accepts(run, j)
      requires TrimSpace(ReplayKey(run[i].response)) == TrimSpace(ReplayKey(run[j].response))
      ensures run[j].acceptedAt >= run[i].acceptedAt + window
    {
      SeenInOrder(run);
      SpacedAlong(Sees(run), window, i, j);
    }

    /** A signature is accepted at most once per window for one request, whatever the headers around it, unless the MAC
        collides. */
    lemma SignatureOncePerWindow(run: seq<Event>, i: nat, j: nat)
      requires window > 0 && Monotone(run) && i < j < |run| && Accepts(run, i) && Accepts(run, j)
      requires OneLineHeaders(run[i].response) && OneLineHeaders(run[j].response)
      requires run[i].response.uri == run[j].response.uri
      requires TrimSpace(run[i].response.signature) == TrimSpace(run[j].response.signature)
      ensures run[j].acceptedAt >= run[i].acceptedAt + window || Collides(mac, token, run[i].response, run[j].response)
    {
      SignatureStandsForOne(mac, token, run[i].response, run[j].response, run[i].verifiedAt, run[j].verifiedAt, window);
      if !Collides(mac, token, run[i].response, run[j].response) {
        AcceptancesAreSpaced(run, i, j);
      }
    }

    /** A response accepted twice was issued no earlier than its first acceptance, less the time the second
        receipt spent between its two clock readings. */
    lemma SecondAcceptance(run: seq<Event>, i: nat, j: nat)
      requires window > 0 && Monotone(run) && i < j < |run| && Accepts(run, i) && Accepts(run, j)
      requires run[i].response == run[j].response
      ensures Issued(run[j].response) >= run[i].acceptedAt - (run[j].acceptedAt - run[j].verifiedAt)
    {
      AcceptancesAreSpaced(run, i, j);
    }

    /** With one clock reading per response, a response first accepted at `t` can ever be accepted again exactly
        when it was issued at `t` or later. */
    lemma ReplayableIff(r: Response, t: int)
      requires window > 0 && Accepts([Event(r, t, t)], 0)
      ensures (exists run: seq<Event>, j ::
                 && 0 < j < |run| && run[0] == Event(r, t, t) && run[j].response == r
                 && Monotone(run) && (forall i :: 0 <= i < |run| ==> run[i].verifiedAt == run[i].acceptedAt)
                 && Accepts(run, j))
              <==> Issued(r) >= t
    {
      forall run: seq<Event>, j: nat |
        && 0 < j < |run| && run[0] == Event(r, t, t) && run[j].response == r
        && Monotone(run) && (forall i :: 0 <= i < |run| ==> run[i].verifiedAt == run[i].acceptedAt)
        && Accepts(run, j)
        ensures Issued(r) >= t
      {
        assert Accepts(run, 0);
        SecondAcceptance(run, 0, j);
      }
      if Issued(r) >= t {
        AcceptedAgain(r, t);
        var run := [Event(r, t, t), Event(r, t + window, t + window)];
        assert run[1].response == r && Monotone(run) && Accepts(run, 1);
      }
    }

    lemma AcceptedAgain(r: Response, t: int)
      requires window > 0 && Accepts([Event(r, t, t)], 0) && Issued(r) >= t
      ensures Accepts([Event(r, t, t), Event(r, t + window, t + window)], 1)
    {
      var first, second := Event(r, t, t), Event(r, t + window, t + window);
      VerifiedAgain(r, t);
      ExpiredAtWindow([See(first), See(second)], window);
      assert Sees([first, second]) == [See(first), See(second)];
    }

    /** One window later the signature check still accepts a response issued at `t` or later. */
    lemma VerifiedAgain(r: Response, t: int)
      requires window > 0 && Verify(mac, token, r, t, window) == Accepted && Issued(r) >= t
      ensures Verify(mac, token, r, t + window, window) == Accepted
    {
    }
  }

  /** One window after a key was recorded it has just expired. */
  lemma ExpiredAtWindow(seen: seq<Seen>, window: int)
    requires |seen| == 2 && seen[0].valid && seen[0].key != "" && seen[1].at == seen[0].at + window
    ensures Free(Cached(seen, 1, window), seen[0].key, seen[1].at)
  {
    assert Cached(seen, 0, window) == map[];
    assert Live(map[], seen[0].at) == map[];
  }
}
