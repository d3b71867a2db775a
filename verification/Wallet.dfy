/**
 How `MoneroWalletRPC._call` posts a transfer (sthrip/wallet.py): again after a timeout or a
 lost connection, three times at most. A post that got no answer may have been carried out.
 */
module Wallet {
  import opened Common

  const MAX_POSTS := 3

  /** What becomes of one post; `sent` says whether the wallet carried the transfer out. */
  datatype Post =
    | Answered
    | TimedOut(sent: bool)
    | Disconnected(sent: bool)
    | Rejected(sent: bool)   // an error reply, an HTTP error or an unreadable answer

  predicate Sent(p: Post) {
    p.Answered? || p.sent
  }

  /** The two outcomes that are tried again. */
  predicate Transient(p: Post) {
    p.TimedOut? || p.Disconnected?
  }

  predicate MayPost(posts: seq<Post>) {
    |posts| < MAX_POSTS && (posts == [] || Transient(posts[|posts| - 1]))
  }

  /** The posts of one call, finished or not. */
  ghost predicate IsCall(posts: seq<Post>) {
    |posts| <= MAX_POSTS && forall i :: 0 <= i < |posts| - 1 ==> Transient(posts[i])
  }

  /** The call has returned a result. */
  predicate EndsAnswered(posts: seq<Post>) {
    posts != [] && posts[|posts| - 1].Answered?
  }

  function TimesSent(posts: seq<Post>): nat {
    if posts == [] then 0 else TimesSent(posts[..|posts| - 1]) + One(Sent(posts[|posts| - 1]))
  }

  ghost predicate SentTwice(posts: seq<Post>) {
    exists i, j :: 0 <= i < j < |posts| && Transient(posts[i]) && posts[i].sent && Sent(posts[j])
  }

  lemma {:induction false} SentOnce(posts: seq<Post>)
    ensures TimesSent(posts) > 0 <==> exists i :: 0 <= i < |posts| && Sent(posts[i])
  {
    if posts != [] {
      var before := posts[..|posts| - 1];
      SentOnce(before);
      assert forall i :: 0 <= i < |before| ==> before[i] == posts[i];
      if i :| 0 <= i < |before| && Sent(before[i]) { assert Sent(posts[i]); }
      if i :| 0 <= i < |posts| && Sent(posts[i]) {
        if i < |before| { assert Sent(before[i]); }
      }
    }
  }

  lemma {:induction false} SentMoreThanOnce(posts: seq<Post>)
    requires IsCall(posts)
    ensures TimesSent(posts) > 1 <==> SentTwice(posts)
  {
    if posts != [] {
      var before := posts[..|posts| - 1];
      SentMoreThanOnce(before);
      SentOnce(before);
      assert forall i :: 0 <= i < |before| ==> before[i] == posts[i];
      if SentTwice(before) {
        var i, j :| 0 <= i < j < |before| && Transient(before[i]) && before[i].sent && Sent(before[j]);
        assert Transient(posts[i]) && posts[i].sent && Sent(posts[j]);
      }
      if TimesSent(before) > 0 && Sent(posts[|before|]) {
        var i :| 0 <= i < |before| && Sent(before[i]);
        assert Transient(posts[i]) && posts[i].sent;
      }
      if SentTwice(posts) {
        var i, j :| 0 <= i < j < |posts| && Transient(posts[i]) && posts[i].sent && Sent(posts[j]);
        assert Sent(before[i]);
        if j < |before| { assert Transient(before[i]) && before[i].sent && Sent(before[j]); }
      }
    }
  }

  /**
   One call posts a transfer three times at most, and more than once exactly when an earlier
   post timed out or lost its connection. The wallet carries it out more than once exactly
   when it did so for a post whose answer was lost that way, and for a later one again.
   */
  lemma RepeatsExactly(posts: seq<Post>)
    requires IsCall(posts)
    ensures TimesSent(posts) <= |posts| <= 3
    ensures |posts| > 1 <==> exists i :: 0 <= i < |posts| - 1 && Transient(posts[i])
    ensures TimesSent(posts) > 1 <==> SentTwice(posts)
  {
    SentMoreThanOnce(posts);
    SentAtMostPosted(posts);
    if |posts| > 1 { assert Transient(posts[0]); }
  }

  lemma {:induction false} SentAtMostPosted(posts: seq<Post>)
    ensures TimesSent(posts) <= |posts|
  {
    if posts != [] { SentAtMostPosted(posts[..|posts| - 1]); }
  }

  lemma NextPost(posts: seq<Post>, p: Post)
    requires IsCall(posts) && MayPost(posts)
    ensures IsCall(posts + [p])
  {
  }

  /** A first post is always made, and a second and third only right after a timeout or a lost connection. */
  lemma PostsAgainExactly(posts: seq<Post>, p: Post)
    ensures MayPost([])
    ensures MayPost(posts + [p]) <==> |posts| < 2 && (p.TimedOut? || p.Disconnected?)
    ensures EndsAnswered(posts + [p]) <==> p == Answered
    ensures !EndsAnswered([])
    ensures TimesSent(posts + [p]) == TimesSent(posts) + if p == Answered || p.sent then 1 else 0
  {
    assert (posts + [p])[..|posts|] == posts;
  }

  /** `fate` says what would become of each post; the caller stops waiting after `waits` of them. */
  method Call(fate: seq<Post>, waits: nat) returns (posts: seq<Post>)
    requires |fate| == MAX_POSTS
    ensures posts <= fate && IsCall(posts) && |posts| <= waits
    ensures |posts| == waits || !MayPost(posts)
  {
    posts := [];
    while MayPost(posts) && |posts| < waits
      invariant posts <= fate && IsCall(posts) && |posts| <= waits
      decreases MAX_POSTS - |posts|
    {
      posts := posts + [fate[|posts|]];
    }
  }
}
