/**
 The meaning of the admin session store: a map from keys to entries in which nothing is
 ever evicted, stepped by operations that carry the time they happen at.
 */
module SessionSpec {
  import opened Common

  const CSRF_TTL := 600

  // A stored value: the plain "1", or the JSON object with the bound address and User-Agent hash.
  datatype Value = Plain | Binding(ip: string, uaHash: string)

  datatype Entry = Entry(expires: int, value: Value)

  type Store = map<string, Entry>
  type Hash = string -> string

  /** What the store relies on in hexadecimal SHA-256: no collisions, digests that are not empty and hold no colon. */
  ghost predicate IsDigest(hash: Hash) {
    && (forall a, b :: hash(a) == hash(b) ==> a == b)
    && (forall a :: hash(a) != "" && ':' !in hash(a))
  }

  /** A hash of this kind: two characters for each one, of which neither is a colon. */
  function Spelled(s: string): (r: string)
    ensures |r| == 2 * |s| + 1
  {
    ['x'] + seq(2 * |s|, i requires 0 <= i < 2 * |s| =>
      if i % 2 == 0 then (if s[i / 2] == ':' then 'c' else 'o')
      else if s[i / 2] == ':' then 'c' else s[i / 2])
  }

  lemma SpelledAt(s: string, i: nat)
    requires i < |s|
    ensures Spelled(s)[2 * i + 1] == (if s[i] == ':' then 'c' else 'o')
    ensures Spelled(s)[2 * i + 2] == (if s[i] == ':' then 'c' else s[i])
  {
    assert 2 * i / 2 == i && (2 * i + 1) / 2 == i;
  }

  /** The assumption can be met, so nothing below holds for want of a hash. */
  lemma DigestsExist()
    ensures IsDigest(Spelled)
  {
    forall a, b | Spelled(a) == Spelled(b) ensures a == b {
      forall i | 0 <= i < |a| ensures a[i] == b[i] {
        SpelledAt(a, i);
        SpelledAt(b, i);
      }
    }
  }

  function SessionKey(hash: Hash, token: string): string {
    hash(token)
  }

  function CsrfKey(hash: Hash, token: string): string {
    "csrf:" + hash(token)
  }

  /** Session keys and CSRF keys never meet, and keys of one kind are as distinct as their tokens. */
  lemma KeySpaces(hash: Hash, a: string, b: string)
    requires IsDigest(hash)
    ensures SessionKey(hash, a) != CsrfKey(hash, b)
    ensures SessionKey(hash, a) == SessionKey(hash, b) ==> a == b
    ensures CsrfKey(hash, a) == CsrfKey(hash, b) ==> a == b
  {
    assert CsrfKey(hash, b)[4] == ':' && ':' !in SessionKey(hash, a);
    if CsrfKey(hash, a) == CsrfKey(hash, b) {
      assert CsrfKey(hash, a)[5..] == hash(a) && CsrfKey(hash, b)[5..] == hash(b);
    }
  }

  // ---------------------------------------------------------------- bindings

  /** Python's truth value of an optional string. */
  predicate Given(s: Option<string>) {
    s.Some? && s.value != ""
  }

  function OrEmpty(s: Option<string>): string {
    if s.Some? then s.value else ""
  }

  function HashIfGiven(hash: Hash, s: Option<string>): string {
    if Given(s) then hash(s.value) else ""
  }

  function BindingOf(hash: Hash, ip: Option<string>, userAgent: Option<string>): Value {
    Binding(OrEmpty(ip), HashIfGiven(hash, userAgent))
  }

  predicate Matches(hash: Hash, value: Value, ip: Option<string>, userAgent: Option<string>) {
    match value
    case Plain => true
    case Binding(boundIp, boundUa) =>
      && (boundIp == "" || boundIp == OrEmpty(ip))
      && (boundUa == "" || boundUa == HashIfGiven(hash, userAgent))
  }

  /** A session accepts a caller exactly when each thing it was bound to is presented again. */
  lemma MatchesExactly(hash: Hash, ip: Option<string>, ua: Option<string>, gotIp: Option<string>, gotUa: Option<string>)
    requires IsDigest(hash)
    ensures Matches(hash, BindingOf(hash, ip, ua), gotIp, gotUa)
        <==> (Given(ip) ==> gotIp == ip) && (Given(ua) ==> gotUa == ua)
  {
    if Given(ua) {
      assert hash(ua.value) != "";
    }
  }

  // ---------------------------------------------------------------- operations

  datatype Op =
    | CreateSession(token: string, ttl: int, ip: Option<string>, userAgent: Option<string>)
    | SetSession(token: string, ttl: int)
    | DeleteSession(token: string)
    | ValidateSession(token: string, ip: Option<string>, userAgent: Option<string>)
    | GetSession(token: string)
    | CreateCsrf(token: string)
    | VerifyCsrf(token: string)

  datatype Event = Event(op: Op, now: int)

  predicate Live(m: Store, key: string, now: int) {
    key in m && m[key].expires >= now
  }

  /** The characters Python's str.strip removes. */
  predicate IsSpace(c: char) {
    var n := c as int;
    9 <= n <= 13 || 28 <= n <= 32 || n in {133, 160, 5760, 8232, 8233, 8239, 8287, 12288} || 8192 <= n <= 8202
  }

  predicate Blank(s: string) {
    forall i :: 0 <= i < |s| ==> IsSpace(s[i])
  }

  function After(hash: Hash, m: Store, e: Event): Store {
    match e.op
    case CreateSession(token, ttl, ip, ua) =>
      m[SessionKey(hash, token) := Entry(e.now + ttl, BindingOf(hash, ip, ua))]
    case SetSession(token, ttl) => m[SessionKey(hash, token) := Entry(e.now + ttl, Plain)]
    case DeleteSession(token) => m - {SessionKey(hash, token)}
    case CreateCsrf(token) => m[CsrfKey(hash, token) := Entry(e.now + CSRF_TTL, Plain)]
    case VerifyCsrf(token) => if Blank(token) then m else m - {CsrfKey(hash, token)}
    case ValidateSession(_, _, _) => m
    case GetSession(_) => m
  }

  /** What a query answers; the other operations answer nothing. */
  predicate Answer(hash: Hash, m: Store, e: Event) {
    match e.op
    case ValidateSession(token, ip, ua) =>
      && token != "" && Live(m, SessionKey(hash, token), e.now)
      && Matches(hash, m[SessionKey(hash, token)].value, ip, ua)
    case GetSession(token) => token != "" && Live(m, SessionKey(hash, token), e.now)
    case VerifyCsrf(token) =>
      && !Blank(token)
      && CsrfKey(hash, token) in m && m[CsrfKey(hash, token)].expires > e.now
    case _ => false
  }

  function Run(hash: Hash, m: Store, events: seq<Event>): Store {
    if events == [] then m
    else After(hash, Run(hash, m, events[..|events| - 1]), events[|events| - 1])
  }

  // ---------------------------------------------------------------- sessions over whole runs

  /** The last thing that was done to the session of `token`. */
  function LastSession(hash: Hash, events: seq<Event>, token: string): Option<Entry> {
    if events == [] then None
    else
      var e := events[|events| - 1];
      match e.op
      case CreateSession(t, ttl, ip, ua) =>
        if t == token then Some(Entry(e.now + ttl, BindingOf(hash, ip, ua)))
        else LastSession(hash, events[..|events| - 1], token)
      case SetSession(t, ttl) =>
        if t == token then Some(Entry(e.now + ttl, Plain)) else LastSession(hash, events[..|events| - 1], token)
      case DeleteSession(t) =>
        if t == token then None else LastSession(hash, events[..|events| - 1], token)
      case _ => LastSession(hash, events[..|events| - 1], token)
  }

  function Lookup(m: Store, key: string): Option<Entry> {
    if key in m then Some(m[key]) else None
  }

  /** Only the last operation on a session's own token decides what the store holds for it. */
  lemma {:induction false} SessionIsLastWritten(hash: Hash, events: seq<Event>, token: string)
    requires IsDigest(hash)
    ensures Lookup(Run(hash, map[], events), SessionKey(hash, token)) == LastSession(hash, events, token)
  {
    if events != [] {
      var e := events[|events| - 1];
      SessionIsLastWritten(hash, events[..|events| - 1], token);
      KeySpaces(hash, token, e.op.token);
    }
  }

  /**
   After any run, validation succeeds exactly when the last operation on the token was a
   store whose lifetime has not passed and whose bound address and User-Agent are presented.
   */
  lemma ValidatesExactly(hash: Hash, events: seq<Event>, token: string,
                         ip: Option<string>, ua: Option<string>, now: int)
    requires IsDigest(hash)
    ensures Answer(hash, Run(hash, map[], events), Event(ValidateSession(token, ip, ua), now))
        <==> var last := LastSession(hash, events, token);
             token != "" && last.Some? && now <= last.value.expires && Matches(hash, last.value.value, ip, ua)
    ensures Answer(hash, Run(hash, map[], events), Event(GetSession(token), now))
        <==> var last := LastSession(hash, events, token); token != "" && last.Some? && now <= last.value.expires
  {
    SessionIsLastWritten(hash, events, token);
  }

  // ---------------------------------------------------------------- CSRF tokens over whole runs

  function CsrfCreations(events: seq<Event>, token: string): nat {
    if events == [] then 0
    else One(events[|events| - 1].op == CreateCsrf(token)) + CsrfCreations(events[..|events| - 1], token)
  }

  function CsrfAcceptances(hash: Hash, events: seq<Event>, token: string): nat {
    if events == [] then 0
    else
      var before := Run(hash, map[], events[..|events| - 1]);
      One(events[|events| - 1].op == VerifyCsrf(token) && Answer(hash, before, events[|events| - 1]))
      + CsrfAcceptances(hash, events[..|events| - 1], token)
  }

  lemma {:induction false} CreationsExactly(events: seq<Event>, token: string)
    ensures CsrfCreations(events, token) == |set i | 0 <= i < |events| && events[i].op == CreateCsrf(token)|
  {
    if events != [] {
      var n := |events| - 1;
      CreationsExactly(events[..n], token);
      var before := set i | 0 <= i < n && events[..n][i].op == CreateCsrf(token);
      var after := set i | 0 <= i < |events| && events[i].op == CreateCsrf(token);
      assert after == before + if events[n].op == CreateCsrf(token) then {n} else {};
    }
  }

  /** A token is accepted at most once for every time it was created. */
  lemma {:induction false} CsrfAcceptedOncePerCreation(hash: Hash, events: seq<Event>, token: string)
    requires IsDigest(hash)
    ensures CsrfAcceptances(hash, events, token) + One(CsrfKey(hash, token) in Run(hash, map[], events))
         <= CsrfCreations(events, token)
  {
    if events != [] {
      var e := events[|events| - 1];
      CsrfAcceptedOncePerCreation(hash, events[..|events| - 1], token);
      KeySpaces(hash, token, e.op.token);
      KeySpaces(hash, e.op.token, token);
    }
  }

  /** The latest creation of a CSRF token, unless a verification consumed it since. */
  function LastCsrf(events: seq<Event>, token: string): Option<int> {
    if events == [] then None
    else if events[|events| - 1].op == CreateCsrf(token) then Some(events[|events| - 1].now)
    else if events[|events| - 1].op == VerifyCsrf(token) && !Blank(token) then None
    else LastCsrf(events[..|events| - 1], token)
  }

  /**
   After any run a token is accepted exactly when its last creation is less than ten minutes
   old and no verification came in between: no session operation makes a difference.
   */
  lemma {:induction false} CsrfAcceptedExactly(hash: Hash, events: seq<Event>, token: string, now: int)
    requires IsDigest(hash)
    ensures Lookup(Run(hash, map[], events), CsrfKey(hash, token))
         == match LastCsrf(events, token) case None => None case Some(t) => Some(Entry(t + 600, Plain))
    ensures Answer(hash, Run(hash, map[], events), Event(VerifyCsrf(token), now))
        <==> !Blank(token) && LastCsrf(events, token).Some? && now < LastCsrf(events, token).value + 600
  {
    if events != [] {
      var e := events[|events| - 1];
      CsrfAcceptedExactly(hash, events[..|events| - 1], token, now);
      KeySpaces(hash, token, e.op.token);
      KeySpaces(hash, e.op.token, token);
    }
  }

  const CAPITALS := "ABCDEFGHIJKLM" + "NOPQRSTUVWXYZ"
  const SMALL_LETTERS := "abcdefghijklm" + "nopqrstuvwxyz"
  const DIGITS_AND_SIGNS := "0123456789-_"

  /** What secrets.token_urlsafe makes its tokens of. */
  ghost predicate UrlSafe(token: string) {
    token != "" && forall i :: 0 <= i < |token| ==> token[i] in CAPITALS + SMALL_LETTERS + DIGITS_AND_SIGNS
  }

  lemma LettersAreNotSpace(c: char)
    ensures c in CAPITALS ==> 'A' <= c <= 'Z'
    ensures c in SMALL_LETTERS ==> 'a' <= c <= 'z'
    ensures c in DIGITS_AND_SIGNS ==> '-' <= c <= '_'
  {
  }

  lemma UrlSafeIsNotBlank(token: string)
    requires UrlSafe(token)
    ensures !Blank(token)
  {
    LettersAreNotSpace(token[0]);
    assert !IsSpace(token[0]);
  }

  /** The i-th event created the token, and it was neither created nor verified after that. */
  ghost predicate UnusedSince(events: seq<Event>, token: string, i: nat)
    requires i < |events|
  {
    && events[i].op == CreateCsrf(token)
    && forall j :: i < j < |events| ==> events[j].op != CreateCsrf(token) && events[j].op != VerifyCsrf(token)
  }

  lemma {:induction false} LastCsrfExactly(events: seq<Event>, token: string, t: int)
    requires !Blank(token)
    ensures LastCsrf(events, token) == Some(t)
        <==> exists i :: 0 <= i < |events| && UnusedSince(events, token, i) && events[i].now == t
  {
    if events != [] {
      var before, e := events[..|events| - 1], events[|events| - 1];
      LastCsrfExactly(before, token, t);
      if e.op == CreateCsrf(token) {
        assert UnusedSince(events, token, |before|);
      } else if e.op != VerifyCsrf(token) {
        forall i | 0 <= i < |before| ensures UnusedSince(events, token, i) == UnusedSince(before, token, i) {
          assert forall j :: 0 <= j < |before| ==> events[j] == before[j];
        }
      }
    }
  }

  /**
   A token of the kind the program creates is accepted exactly when it was created less than
   600 seconds ago and has not been verified since.
   */
  lemma UrlSafeAcceptedExactly(hash: Hash, events: seq<Event>, token: string, now: int)
    requires IsDigest(hash) && UrlSafe(token)
    ensures Answer(hash, Run(hash, map[], events), Event(VerifyCsrf(token), now))
        <==> exists i :: 0 <= i < |events| && UnusedSince(events, token, i) && now - events[i].now < 600
  {
    UrlSafeIsNotBlank(token);
    CsrfAcceptedExactly(hash, events, token, now);
    forall t ensures LastCsrf(events, token) == Some(t)
        <==> exists i :: 0 <= i < |events| && UnusedSince(events, token, i) && events[i].now == t
    {
      LastCsrfExactly(events, token, t);
    }
    if i :| 0 <= i < |events| && UnusedSince(events, token, i) && now - events[i].now < 600 {
      assert LastCsrf(events, token) == Some(events[i].now);
    }
  }

  /** Nothing but spaces and tabs is refused, whatever happened before, and consumes nothing. */
  lemma SpacesRefused(hash: Hash, m: Store, token: string, now: int)
    requires forall i :: 0 <= i < |token| ==> token[i] == ' ' || token[i] == '\t'
    ensures !Answer(hash, m, Event(VerifyCsrf(token), now)) && After(hash, m, Event(VerifyCsrf(token), now)) == m
  {
    assert Blank(token);
  }

  /** The 29 characters that count as white space, one by one. */
  lemma SpacesExactly(c: char)
    ensures IsSpace(c) <==> c as int in [
      0x09, 0x0A, 0x0B, 0x0C, 0x0D, 0x1C, 0x1D, 0x1E, 0x1F, 0x20, 0x85, 0xA0, 0x1680,
      0x2000, 0x2001, 0x2002, 0x2003, 0x2004, 0x2005, 0x2006, 0x2007, 0x2008, 0x2009, 0x200A,
      0x2028, 0x2029, 0x202F, 0x205F, 0x3000]
  {
  }
}
