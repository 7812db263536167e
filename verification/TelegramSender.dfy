/** The Telegram writer's sending path: one global bucket, one bucket per destination made on demand,
    and at most three attempts per message. One consumer task sends, so sends do not overlap. */
module TelegramSender {
  import opened Options
  import opened RateLimit

  datatype Destination = Destination(chatId: string, threadId: Option<string>)
  {
    /** Identity for per-destination limiting; the thread id is given in its decimal spelling. */
    function Key(): string {
      if threadId.None? then chatId else chatId + "#" + threadId.value
    }
  }

  lemma KeyReads(d: Destination)
    requires '#' !in d.chatId
    ensures '#' in d.Key() <==> d.threadId.Some?
    ensures d.threadId.Some? ==> d.Key()[|d.chatId|] == '#' && d.Key()[|d.chatId| + 1..] == d.threadId.value
    ensures d.Key()[..|d.chatId|] == d.chatId
  {
    if d.threadId.Some? {
      assert d.Key()[|d.chatId|] == '#';
    }
  }

  lemma FirstHash(s: string, i: nat, j: nat)
    requires i < |s| && j < |s| && s[i] == s[j] == '#'
    requires (forall k :: 0 <= k < i ==> s[k] != '#') && (forall k :: 0 <= k < j ==> s[k] != '#')
    ensures i == j
  {
  }

  /** Chats whose ids hold no `#`, and their topics, are all limited separately. */
  lemma KeysAreDistinct(a: Destination, b: Destination)
    requires '#' !in a.chatId && '#' !in b.chatId
    ensures a.Key() == b.Key() <==> a == b
  {
    KeyReads(a);
    KeyReads(b);
    if a.Key() == b.Key() && a.threadId.Some? {
      assert forall k :: 0 <= k < |a.chatId| ==> a.Key()[k] == a.chatId[k];
      assert forall k :: 0 <= k < |b.chatId| ==> b.Key()[k] == b.chatId[k];
      FirstHash(a.Key(), |a.chatId|, |b.chatId|);
    }
  }

  /** What a post to the Telegram API can come back with. */
  datatype Reply = Failed | Throttled(retryAfter: Option<real>) | Rejected | Delivered

  datatype Post = Post(key: string, at: real)

  /** The posts that went out, as unit grants at the moment of posting. */
  function All(posts: seq<Post>): seq<Grant> {
    if posts == [] then [] else All(posts[..|posts| - 1]) + [Grant(posts[|posts| - 1].at, 1.0)]
  }

  /** The posts to one destination, as unit grants. */
  function To(posts: seq<Post>, key: string): seq<Grant> {
    if posts == [] then []
    else
      var last := posts[|posts| - 1];
      To(posts[..|posts| - 1], key) + (if last.key == key then [Grant(last.at, 1.0)] else [])
  }

  lemma ToSnoc(posts: seq<Post>, post: Post, key: string)
    ensures To(posts + [post], key) == To(posts, key) + (if post.key == key then [Grant(post.at, 1.0)] else [])
  {
    assert (posts + [post])[..|posts|] == posts;
  }

  /** Each post follows its own global grant and precedes the next one. */
  predicate Alternate(grants: seq<Grant>, posts: seq<Post>) {
    && |grants| == |posts|
    && (forall i :: 0 <= i < |grants| ==> grants[i].amount == 1.0 && grants[i].at <= posts[i].at)
    && (forall i, j :: 0 <= i < j < |grants| ==> posts[i].at <= grants[j].at)
  }

  /** How many posts one message makes: throttled replies are retried while retries are left. */
  function Attempts(replies: seq<Reply>, retries: nat): (n: nat)
    requires |replies| > retries
    ensures 1 <= n <= retries + 1
    ensures forall i :: 0 <= i < n - 1 ==> replies[i].Throttled?
    ensures replies[n - 1].Throttled? ==> n == retries + 1
    decreases retries
  {
    if replies[0].Throttled? && retries > 0 then
      1 + Attempts(replies[1..], retries - 1)
    else 1
  }

  /** Between two posts of one message lies a throttled reply to the first and the delay it asked for, a second
      when it named none. `sent` are the message's own posts. */
  predicate WaitedOut(sent: seq<Post>, replies: seq<Reply>)
    requires |sent| <= |replies|
  {
    forall k :: 0 <= k < |sent| - 1 ==>
      && replies[k].Throttled?
      && sent[k].at + (if replies[k].retryAfter.Some? then replies[k].retryAfter.value else 1.0) <= sent[k + 1].at
  }

  lemma NothingToWaitFor(sent: seq<Post>, replies: seq<Reply>)
    requires |sent| <= 1 && |sent| <= |replies|
    ensures WaitedOut(sent, replies)
  {
  }

  lemma WaitedOutMore(first: Post, sent: seq<Post>, replies: seq<Reply>)
    requires |sent| < |replies| && replies[0].Throttled? && WaitedOut(sent, replies[1..])
    requires sent != [] ==>
               first.at + (if replies[0].retryAfter.Some? then replies[0].retryAfter.value else 1.0) <= sent[0].at
    ensures WaitedOut([first] + sent, replies)
  {
    var all := [first] + sent;
    forall k | 0 <= k < |all| - 1
      ensures replies[k].Throttled?
      ensures all[k].at + (if replies[k].retryAfter.Some? then replies[k].retryAfter.value else 1.0) <= all[k + 1].at
    {
      if k > 0 {
        assert replies[k] == replies[1..][k - 1] && all[k] == sent[k - 1] && all[k + 1] == sent[k - 1 + 1];
      }
    }
  }

  class Sender {
    const loop: EventLoop
    const globalBucket: TokenBucket
    const perChatRate: real
    var destBuckets: map<string, TokenBucket>
    var connected: bool
    var posts: seq<Post>
    ghost var buckets: set<TokenBucket>

    constructor (loop: EventLoop, globalRate: real, perChatRate: real)
      requires globalRate >= 1.0 && perChatRate >= 1.0
      ensures Valid() && this.loop == loop && this.perChatRate == perChatRate
      ensures globalBucket.tokens == globalBucket.capacity == globalBucket.rate == globalRate
      ensures posts == [] && destBuckets == map[] && !connected
      ensures fresh(globalBucket) && buckets == {}
    {
      this.loop, this.perChatRate := loop, perChatRate;
      this.globalBucket := new TokenBucket(loop, globalRate, None);
      this.destBuckets := map[];
      this.connected := false;
      this.posts := [];
      this.buckets := {};
    }

    /** A bucket that shares the loop's clock and can always serve one token. */
    ghost predicate Serves(bucket: TokenBucket)
      reads bucket, loop
    {
      bucket.loop == loop && bucket.Ok() && bucket.updated <= loop.now && bucket.capacity == bucket.rate >= 1.0
    }

    ghost predicate Shape()
      reads this
    {
      && globalBucket !in buckets
      && (forall key :: key in destBuckets ==> destBuckets[key] in buckets)
      && (forall j, k :: j in destBuckets && k in destBuckets && j != k ==> destBuckets[j] != destBuckets[k])
      && (forall i :: 0 <= i < |posts| ==> posts[i].key in destBuckets)
    }

    /** The bucket of `key` has granted exactly the posts to `key`. */
    ghost predicate Kept(key: string, bucket: TokenBucket)
      reads this, bucket, loop
    {
      Serves(bucket) && bucket.rate == perChatRate && bucket.grants == To(posts, key)
    }

    ghost predicate DestinationsOk()
      reads this, loop, buckets
    {
      && Shape() && perChatRate >= 1.0
      && (forall key :: key in destBuckets ==> Kept(key, destBuckets[key]))
    }

    ghost predicate GlobalOk()
      reads this, loop, globalBucket
    {
      && Serves(globalBucket)
      && Alternate(globalBucket.grants, posts)
      && (forall i :: 0 <= i < |posts| ==> posts[i].at <= loop.now)
    }

    ghost predicate Valid()
      reads this, loop, globalBucket, buckets
    {
      DestinationsOk() && GlobalOk()
    }

    /** The destination's bucket, made on first use. */
    method BucketFor(key: string) returns (bucket: TokenBucket)
      requires DestinationsOk()
      modifies this`destBuckets, this`buckets
      ensures DestinationsOk() && key in destBuckets && bucket == destBuckets[key]
      ensures destBuckets.Keys == old(destBuckets.Keys) + {key}
      ensures forall k :: k in old(destBuckets) ==> destBuckets[k] == old(destBuckets[k])
      ensures fresh(buckets - old(buckets)) && old(buckets) <= buckets
      ensures bucket !in old(buckets) ==> fresh(bucket)
      ensures key !in old(destBuckets) ==>
                fresh(bucket) && bucket.tokens == bucket.capacity == bucket.rate == perChatRate && bucket.grants == []
    {
      hide BucketOk, To, Refilled, Accrued;
      if key in destBuckets {
        bucket := destBuckets[key];
      } else {
        NoPosts(posts, key);
        bucket := new TokenBucket(loop, perChatRate, None);
        destBuckets := destBuckets[key := bucket];
        buckets := buckets + {bucket};
        assert Kept(key, bucket);
        forall k | k in destBuckets && k != key
          ensures Kept(k, destBuckets[k])
        {
          assert old(Kept(k, destBuckets[k]));
        }
      }
    }

    /** Wait for the destination's token, then post. */
    method TakeAndPost(key: string, bucket: TokenBucket)
      requires DestinationsOk() && key in destBuckets && bucket == destBuckets[key]
      modifies this`posts, loop, bucket
      ensures DestinationsOk() && loop.now >= old(loop.now)
      ensures posts == old(posts) + [Post(key, loop.now)]
    {
      hide BucketOk, To, Refilled, Accrued;
      assert Kept(key, bucket);
      ghost var sleeps := bucket.Acquire(1.0);
      posts := posts + [Post(key, loop.now)];
      forall k | k in destBuckets
        ensures Kept(k, destBuckets[k])
      {
        assert old(Kept(k, destBuckets[k]));
        ToSnoc(old(posts), Post(key, loop.now), k);
      }
    }

    /** Take a destination token and post. */
    method PostTo(key: string)
      requires DestinationsOk()
      modifies this`destBuckets, this`buckets, this`posts, loop, buckets
      ensures DestinationsOk() && loop.now >= old(loop.now)
      ensures posts == old(posts) + [Post(key, loop.now)]
      ensures fresh(buckets - old(buckets)) && old(buckets) <= buckets
    {
      hide BucketOk, To, Kept;
      var bucket := BucketFor(key);
      TakeAndPost(key, bucket);
    }

    /** One attempt: a global token, then a destination token, then the post. */
    method Attempt(key: string)
      requires Valid()
      modifies this`destBuckets, this`buckets, this`posts, loop, globalBucket, buckets
      ensures Valid() && loop.now >= old(loop.now)
      ensures posts == old(posts) + [Post(key, loop.now)]
      ensures fresh(buckets - old(buckets)) && old(buckets) <= buckets
    {
      hide BucketOk, To, Refilled, Accrued;
      ghost var sleeps := globalBucket.Acquire(1.0);
      assert DestinationsOk() by {
        forall k | k in destBuckets
          ensures Kept(k, destBuckets[k])
        {
          assert old(Kept(k, destBuckets[k]));
        }
      }
      PostTo(key);
    }

    /** Sleep between two attempts. */
    method Pause(delay: real)
      requires Valid()
      modifies loop
      ensures Valid() && loop.now >= old(loop.now) && loop.now >= old(loop.now) + delay
    {
      hide BucketOk, To, Refilled, Accrued;
      loop.Sleep(delay);
    }

    /** Send one message; the replies the API would give are a parameter. A throttled reply is waited out before
        the next attempt. */
    method Send(dest: Destination, replies: seq<Reply>, retries: nat := 2)
      requires Valid() && |replies| > retries
      modifies this`destBuckets, this`buckets, this`posts, loop, globalBucket, buckets
      ensures Valid() && loop.now >= old(loop.now)
      ensures fresh(buckets - old(buckets)) && old(buckets) <= buckets
      ensures old(posts) <= posts
      ensures |posts| - |old(posts)| == if connected then Attempts(replies, retries) else 0
      ensures forall i :: |old(posts)| <= i < |posts| ==> posts[i].key == dest.Key() && posts[i].at >= old(loop.now)
      ensures WaitedOut(posts[|old(posts)|..], replies)
      decreases retries
    {
      hide Valid, WaitedOut;
      if !connected {
        NothingToWaitFor(posts[|posts|..], replies);
        return;
      }
      Attempt(dest.Key());
      ghost var first := posts[|old(posts)|];
      NothingToWaitFor(posts[|old(posts)|..], replies);
      if replies[0].Throttled? && retries > 0 {
        var wait := if replies[0].retryAfter.Some? then replies[0].retryAfter.value else 1.0;
        Pause(wait);
        ghost var so := |posts|;
        Send(dest, replies[1..], retries - 1);
        assert posts[|old(posts)|..] == [first] + posts[so..];
        WaitedOutMore(first, posts[so..], replies);
      }
    }
  }

  // ----- what the two buckets together guarantee -------------------------

  /** Any window holds at most `capacity + rate * w` posts to one destination, and at most one more than
      the global bucket's `capacity + rate * w` posts in all: a message may take its global token, wait for
      its destination and be posted next to a later one. */
  lemma PostsAreLimited(sender: Sender, key: string, from: real, w: real)
    requires sender.Valid() && w >= 0.0
    ensures Granted(To(sender.posts, key), from, from + w) <= sender.perChatRate + Accrued(sender.perChatRate, w)
    ensures var rate := sender.globalBucket.rate;
            Granted(All(sender.posts), from, from + w) <= rate + Accrued(rate, w) + 1.0
  {
    hide BucketOk, To, Granted, All;
    BucketWindow(sender.globalBucket, from, w);
    PostsFollowGrants(sender.globalBucket.grants, sender.posts, from, from + w);
    if key in sender.destBuckets {
      assert sender.Kept(key, sender.destBuckets[key]);
      BucketWindow(sender.destBuckets[key], from, w);
    } else {
      NoPosts(sender.posts, key);
      NonNegative(sender.perChatRate, w);
      assert Granted([], from, from + w) == 0.0 by { NoneGranted(from, from + w); }
    }
  }

  /** A bucket grants one token at each of the times in turn, by the rule of `acquire`. */
  predicate Grantable(tokens: real, updated: real, rate: real, times: seq<real>)
    decreases |times|
  {
    times == [] ||
    (var refilled := Refilled(tokens, updated, rate, rate, times[0]);
     updated <= times[0] && refilled >= 1.0 && Grantable(refilled - 1.0, times[0], rate, times[1..]))
  }

  function Units(times: seq<real>): seq<Grant> {
    seq(|times|, i requires 0 <= i < |times| => Grant(times[i], 1.0))
  }

  /** The extra post is made: with a global rate of two and one per destination, two posts to "A", one to "B"
      and one to "C", all due at time 0. The second post to "A" takes its global token at 0 and waits for "A" until
      1; by then the global bucket is full again, and three posts go out at once, one more than it holds. */
  lemma ExtraPostIsMade()
    ensures var posts := [Post("A", 0.0), Post("A", 1.0), Post("B", 1.0), Post("C", 1.0)];
            var global := [0.0, 0.0, 1.0, 1.0];
            && Grantable(2.0, 0.0, 2.0, global) && Alternate(Units(global), posts)
            && To(posts, "A") == Units([0.0, 1.0]) && Grantable(1.0, 0.0, 1.0, [0.0, 1.0])
            && To(posts, "B") == To(posts, "C") == Units([1.0]) && Grantable(1.0, 1.0, 1.0, [1.0])
            && Granted(All(posts), 1.0, 1.0) == 2.0 + Accrued(2.0, 0.0) + 1.0
  {
    hide Grantable, Granted, All, To;
    GlobalRefills();
    DestinationRefills();
    ThreeAtOnce();
    PostsByKey("A");
    PostsByKey("B");
    PostsByKey("C");
    assert Units([0.0, 1.0]) == [Grant(0.0, 1.0), Grant(1.0, 1.0)] && Units([1.0]) == [Grant(1.0, 1.0)];
    assert "A" != "B" && "A" != "C" && "B" != "C" by { assert "A"[0] != "B"[0] && "A"[0] != "C"[0] && "B"[0] != "C"[0]; }
    NothingAccrues(2.0);
  }

  lemma NothingAccrues(rate: real)
    ensures Accrued(rate, 0.0) == 0.0
  {
  }

  lemma PostsByKey(key: string)
    ensures To([Post("A", 0.0), Post("A", 1.0), Post("B", 1.0), Post("C", 1.0)], key) ==
            (if key == "A" then [Grant(0.0, 1.0), Grant(1.0, 1.0)] else [])
            + (if key == "B" then [Grant(1.0, 1.0)] else []) + (if key == "C" then [Grant(1.0, 1.0)] else [])
  {
    var a, b, c, d := Post("A", 0.0), Post("A", 1.0), Post("B", 1.0), Post("C", 1.0);
    assert To([], key) == [];
    hide To;
    ToSnoc([], a, key);
    ToSnoc([a], b, key);
    ToSnoc([a, b], c, key);
    ToSnoc([a, b, c], d, key);
    assert [] + [a] == [a] && [a] + [b] == [a, b] && [a, b] + [c] == [a, b, c] && [a, b, c] + [d] == [a, b, c, d];
  }

  lemma GlobalRefills()
    ensures Grantable(2.0, 0.0, 2.0, [0.0, 0.0, 1.0, 1.0])
  {
    assert [0.0, 0.0, 1.0, 1.0][1..] == [0.0, 1.0, 1.0] && [0.0, 1.0, 1.0][1..] == [1.0, 1.0] && [1.0, 1.0][1..] == [1.0];
    assert [1.0][1..] == [];
    assert Grantable(1.0, 1.0, 2.0, [1.0]);
    assert Grantable(0.0, 0.0, 2.0, [1.0, 1.0]);
    assert Grantable(1.0, 0.0, 2.0, [0.0, 1.0, 1.0]);
  }

  lemma DestinationRefills()
    ensures Grantable(1.0, 0.0, 1.0, [0.0, 1.0]) && Grantable(1.0, 1.0, 1.0, [1.0])
  {
    assert [0.0, 1.0][1..] == [1.0] && [1.0][1..] == [];
    assert Grantable(0.0, 0.0, 1.0, [1.0]);
  }

  lemma AllSnoc(posts: seq<Post>, post: Post)
    ensures All(posts + [post]) == All(posts) + [Grant(post.at, 1.0)]
    ensures Granted(All(posts + [post]), 1.0, 1.0) == Granted(All(posts), 1.0, 1.0) + (if post.at == 1.0 then 1.0 else 0.0)
  {
    assert (posts + [post])[..|posts|] == posts;
    assert (All(posts) + [Grant(post.at, 1.0)])[..|All(posts)|] == All(posts);
  }

  lemma ThreeAtOnce()
    ensures Granted(All([Post("A", 0.0), Post("A", 1.0), Post("B", 1.0), Post("C", 1.0)]), 1.0, 1.0) == 3.0
  {
    var a, b, c, d := Post("A", 0.0), Post("A", 1.0), Post("B", 1.0), Post("C", 1.0);
    AllSnoc([], a);
    AllSnoc([] + [a], b);
    AllSnoc([] + [a] + [b], c);
    AllSnoc([] + [a] + [b] + [c], d);
    assert [] + [a] + [b] + [c] + [d] == [a, b, c, d];
  }

  lemma NoneGranted(from: real, to: real)
    ensures Granted([], from, to) == 0.0
  {
  }

  lemma BucketWindow(bucket: TokenBucket, from: real, w: real)
    requires bucket.Ok() && w >= 0.0
    ensures Granted(bucket.grants, from, from + w) <= bucket.capacity + Accrued(bucket.rate, w)
  {
    WindowBound(bucket.grants, bucket.rate, bucket.capacity, from, w);
  }

  /** A window sees at most one post more than global grants. */
  lemma {:induction false} PostsFollowGrants(grants: seq<Grant>, posts: seq<Post>, from: real, to: real)
    requires Alternate(grants, posts)
    ensures Granted(All(posts), from, to) <= Granted(grants, from, to) + 1.0
    ensures (forall i :: 0 <= i < |posts| ==> posts[i].at < from) ==> Granted(All(posts), from, to) == 0.0
    ensures Granted(grants, from, to) >= 0.0
    decreases |posts|
  {
    if posts != [] {
      var n := |posts| - 1;
      PostsFollowGrants(grants[..n], posts[..n], from, to);
      assert All(posts)[..|All(posts)| - 1] == All(posts[..n]);
      if from <= posts[n].at <= to && !(from <= grants[n].at) {
        assert forall i :: 0 <= i < n ==> posts[..n][i].at < from;
      }
    }
  }

  lemma {:induction false} NoPosts(posts: seq<Post>, key: string)
    requires forall i :: 0 <= i < |posts| ==> posts[i].key != key
    ensures To(posts, key) == []
  {
    if posts != [] {
      NoPosts(posts[..|posts| - 1], key);
    }
  }
}
