/**
 * `slack_reactions/sh_script.rb`: tally, per Slack user, how many reactions
 * they put on messages and with which emoji, then pick the three users who
 * reacted most and each one's favourite emoji.
 */
module SlackReactions {
  import opened Wrappers
  import opened MapSum

  /** One entry of `message['reactions']`: an emoji name (possibly missing) and the users who chose it. */
  datatype Reaction = Reaction(name: Option<string>, users: seq<string>)

  /** A message of `conversations.history`; `reactions` is absent when nobody reacted. */
  datatype Message = Message(reactions: Option<seq<Reaction>>)

  /** `{"reaction_count" => n, "emoji" => Hash.new(0)}` for one user. */
  datatype UserEntry = UserEntry(reactionCount: nat, emoji: map<string, nat>)

  /** The name recorded for a reaction that has none. */
  const UnknownReaction: string := "unknown_reaction"

  /** What the default block of `user_reaction_hash` stores for a user seen for the first time. */
  const DefaultEntry: UserEntry := UserEntry(0, map[])

  /** The invariant of every entry: its total is the sum of its per-emoji counters. */
  ghost predicate Consistent(e: UserEntry) {
    e.reactionCount == Sum(e.emoji)
  }

  /** `user_reaction_hash[user]`, which inserts the default entry for a missing user. */
  function EntryOf(entries: map<string, UserEntry>, user: string): UserEntry {
    if user in entries then entries[user] else DefaultEntry
  }

  // ---------------------------------------------------------------------------
  // The increments, flattened

  /** One pass of the innermost loop: `user` reacted with emoji `name`. */
  datatype Tick = Tick(user: string, name: string)

  /** `reaction['name'] ||= 'unknown_reaction'`. */
  function NameOf(r: Reaction): string {
    r.name.GetOr(UnknownReaction)
  }

  /** The ticks of one reaction, one per listed user, in order. */
  function UserTicks(users: seq<string>, name: string): (ts: seq<Tick>)
    ensures |ts| == |users|
    ensures forall i :: 0 <= i < |users| ==> ts[i] == Tick(users[i], name)
  {
    seq(|users|, i requires 0 <= i < |users| => Tick(users[i], name))
  }

  /** The ticks of a message's reactions, in order. */
  function ReactionTicks(rs: seq<Reaction>): seq<Tick> {
    if rs == [] then []
    else ReactionTicks(rs[..|rs| - 1]) + UserTicks(rs[|rs| - 1].users, NameOf(rs[|rs| - 1]))
  }

  /** A message without the `reactions` key contributes nothing. */
  function MessageTicks(m: Message): seq<Tick> {
    match m.reactions
    case None => []
    case Some(rs) => ReactionTicks(rs)
  }

  /** Every tick of the messages, in the order the three loops visit them. */
  function Ticks(ms: seq<Message>): seq<Tick> {
    if ms == [] then []
    else Ticks(ms[..|ms| - 1]) + MessageTicks(ms[|ms| - 1])
  }

  /**
   * The body of the innermost loop: the user's `reaction_count` and their
   * counter for the emoji each go up by one, creating the entry and the
   * counter when missing; nobody else's entry changes.
   */
  function Apply(entries: map<string, UserEntry>, t: Tick): (r: map<string, UserEntry>)
    ensures r.Keys == entries.Keys + {t.user}
    ensures r[t.user] == UserEntry(EntryOf(entries, t.user).reactionCount + 1, Increment(EntryOf(entries, t.user).emoji, t.name))
    ensures forall u :: u in entries && u != t.user ==> r[u] == entries[u]
  {
    var e := EntryOf(entries, t.user);
    entries[t.user := UserEntry(e.reactionCount + 1, Increment(e.emoji, t.name))]
  }

  function ApplyAll(entries: map<string, UserEntry>, ts: seq<Tick>): map<string, UserEntry> {
    if ts == [] then entries
    else Apply(ApplyAll(entries, ts[..|ts| - 1]), ts[|ts| - 1])
  }

  lemma {:induction false} ApplyAllConcat(entries: map<string, UserEntry>, a: seq<Tick>, b: seq<Tick>)
    ensures ApplyAll(entries, a + b) == ApplyAll(ApplyAll(entries, a), b)
    decreases |b|
  {
    if b == [] {
      assert a + b == a;
    } else {
      assert (a + b)[..|a + b| - 1] == a + b[..|b| - 1];
      ApplyAllConcat(entries, a, b[..|b| - 1]);
    }
  }

  // ---------------------------------------------------------------------------
  // The tally as an object updated in place

  /** `user_reaction_hash`: user id => entry. */
  class ReactionTally {
    var entries: map<string, UserEntry>

    ghost predicate Valid()
      reads this
    {
      forall u :: u in entries ==> Consistent(entries[u])
    }

    /** `Hash.new { |hash, key| hash[key] = {...} }`: no user yet. */
    constructor ()
      ensures Valid() && entries == map[]
    {
      entries := map[];
    }

    /** The body of the innermost loop for one user and one emoji name. */
    method Tally(user: string, name: string)
      requires Valid()
      modifies this
      ensures Valid()
      ensures entries == Apply(old(entries), Tick(user, name))
    {
      ghost var before := entries;
      var e := EntryOf(entries, user);
      entries := entries[user := e.(reactionCount := e.reactionCount + 1)];
      var e2 := entries[user];
      entries := entries[user := e2.(emoji := Increment(e2.emoji, name))];
      assert ApplyAll(before, [Tick(user, name)]) == entries;
      ApplyAllKeepsConsistent(before, [Tick(user, name)]);
    }

    /** The innermost loop: one increment per listed user, all under the reaction's name. */
    method CountReaction(reaction: Reaction)
      requires Valid()
      modifies this
      ensures Valid()
      ensures entries == ApplyAll(old(entries), UserTicks(reaction.users, NameOf(reaction)))
    {
      var name := NameOf(reaction);
      ghost var before := entries;
      for k := 0 to |reaction.users|
        invariant entries == ApplyAll(before, UserTicks(reaction.users[..k], name))
        invariant Valid()
      {
        assert UserTicks(reaction.users[..k + 1], name) == UserTicks(reaction.users[..k], name) + [Tick(reaction.users[k], name)];
        Tally(reaction.users[k], name);
      }
      assert reaction.users[..|reaction.users|] == reaction.users;
    }

    /** The loop over one message's reactions; a message without reactions is skipped. */
    method CountMessage(message: Message)
      requires Valid()
      modifies this
      ensures Valid()
      ensures entries == ApplyAll(old(entries), MessageTicks(message))
    {
      if message.reactions.Some? {
        var rs := message.reactions.value;
        ghost var before := entries;
        for j := 0 to |rs|
          invariant entries == ApplyAll(before, ReactionTicks(rs[..j]))
          invariant Valid()
        {
          assert rs[..j + 1][..j] == rs[..j];
          ApplyAllConcat(before, ReactionTicks(rs[..j]), UserTicks(rs[j].users, NameOf(rs[j])));
          CountReaction(rs[j]);
        }
        assert rs[..|rs|] == rs;
      }
    }

    /**
     * `caluculate_reaction_counts_per_user`: apply, in order, one increment
     * per listed user of every reaction of every message that has reactions.
     */
    method CountReactions(messages: seq<Message>)
      requires Valid()
      modifies this
      ensures Valid()
      ensures entries == ApplyAll(old(entries), Ticks(messages))
    {
      ghost var start := entries;
      for i := 0 to |messages|
        invariant entries == ApplyAll(start, Ticks(messages[..i]))
        invariant Valid()
      {
        assert messages[..i + 1][..i] == messages[..i];
        ApplyAllConcat(start, Ticks(messages[..i]), MessageTicks(messages[i]));
        CountMessage(messages[i]);
      }
      assert messages[..|messages|] == messages;
    }
  }

  // ---------------------------------------------------------------------------
  // What the tally guarantees

  /** Every user's total stays the sum of their emoji counters: true of a fresh entry and kept by each increment. */
  lemma {:induction false} ApplyAllKeepsConsistent(entries: map<string, UserEntry>, ts: seq<Tick>)
    requires forall u :: u in entries ==> Consistent(entries[u])
    ensures forall u :: u in ApplyAll(entries, ts) ==> Consistent(ApplyAll(entries, ts)[u])
  {
    if ts != [] {
      var prev := ApplyAll(entries, ts[..|ts| - 1]);
      ApplyAllKeepsConsistent(entries, ts[..|ts| - 1]);
      var t := ts[|ts| - 1];
      var e := EntryOf(prev, t.user);
      assert Consistent(e);
      SumIncrement(e.emoji, t.name);
      var r := Apply(prev, t);
      assert r == ApplyAll(entries, ts);
      forall u | u in r
        ensures Consistent(r[u])
      {
        if u != t.user {
          assert r[u] == prev[u];
        }
      }
    }
  }

  /** Every entry of the tally has at least one emoji counter, so `most_often_used_emoji` always has a key to return. */
  lemma {:induction false} ApplyAllEmojiNonEmpty(entries: map<string, UserEntry>, ts: seq<Tick>)
    requires forall u :: u in entries ==> entries[u].emoji != map[]
    ensures forall u :: u in ApplyAll(entries, ts) ==> ApplyAll(entries, ts)[u].emoji != map[]
  {
    if ts != [] {
      ApplyAllEmojiNonEmpty(entries, ts[..|ts| - 1]);
      var t := ts[|ts| - 1];
      var prev := ApplyAll(entries, ts[..|ts| - 1]);
      assert t.name in Apply(prev, t)[t.user].emoji;
    }
  }

  /** A user's total reaction count, 0 for a user not yet in the hash. */
  function CountOf(entries: map<string, UserEntry>, user: string): nat {
    EntryOf(entries, user).reactionCount
  }

  /** A user's counter for one emoji, 0 when missing. */
  function EmojiCountOf(entries: map<string, UserEntry>, user: string, name: string): nat {
    Get(EntryOf(entries, user).emoji, name)
  }

  /** The number of ticks for `user`. */
  function TicksFor(ts: seq<Tick>, user: string): nat {
    if ts == [] then 0
    else TicksFor(ts[..|ts| - 1], user) + if ts[|ts| - 1].user == user then 1 else 0
  }

  /** The number of ticks for `user` with emoji `name`. */
  function TicksWith(ts: seq<Tick>, user: string, name: string): nat {
    if ts == [] then 0
    else TicksWith(ts[..|ts| - 1], user, name) + if ts[|ts| - 1] == Tick(user, name) then 1 else 0
  }

  /** Each tick for a user raises that user's total by exactly one and nobody else's. */
  lemma {:induction false} ApplyAllCounts(entries: map<string, UserEntry>, ts: seq<Tick>, user: string)
    ensures CountOf(ApplyAll(entries, ts), user) == CountOf(entries, user) + TicksFor(ts, user)
  {
    if ts != [] {
      ApplyAllCounts(entries, ts[..|ts| - 1], user);
    }
  }

  /** Each tick for a user and an emoji raises exactly that counter by one. */
  lemma {:induction false} ApplyAllEmojiCounts(entries: map<string, UserEntry>, ts: seq<Tick>, user: string, name: string)
    ensures EmojiCountOf(ApplyAll(entries, ts), user, name) == EmojiCountOf(entries, user, name) + TicksWith(ts, user, name)
  {
    if ts != [] {
      ApplyAllEmojiCounts(entries, ts[..|ts| - 1], user, name);
    }
  }

  /** A user no tick names is left exactly as they were (absent stays absent). */
  lemma {:induction false} ApplyAllUnlisted(entries: map<string, UserEntry>, ts: seq<Tick>, user: string)
    requires forall i :: 0 <= i < |ts| ==> ts[i].user != user
    ensures user in ApplyAll(entries, ts) <==> user in entries
    ensures user in entries ==> ApplyAll(entries, ts)[user] == entries[user]
  {
    if ts != [] {
      ApplyAllUnlisted(entries, ts[..|ts| - 1], user);
    }
  }

  /** Every user's reaction count, as a map of counters. */
  function Counts(entries: map<string, UserEntry>): (c: map<string, nat>)
    ensures c.Keys == entries.Keys
    ensures forall u :: u in entries ==> c[u] == entries[u].reactionCount
  {
    map u | u in entries :: entries[u].reactionCount
  }

  /** One increment of a user's total is one increment of that user's counter. */
  lemma CountsApply(entries: map<string, UserEntry>, t: Tick)
    ensures Counts(Apply(entries, t)) == Increment(Counts(entries), t.user)
  {
    var a := Counts(Apply(entries, t));
    var b := Increment(Counts(entries), t.user);
    assert a.Keys == b.Keys;
    forall u | u in a
      ensures a[u] == b[u]
    {
    }
  }

  /** Conservation: all users' totals together go up by the number of ticks. */
  lemma {:induction false} ApplyAllTotal(entries: map<string, UserEntry>, ts: seq<Tick>)
    ensures Sum(Counts(ApplyAll(entries, ts))) == Sum(Counts(entries)) + |ts|
  {
    if ts != [] {
      var prev := ApplyAll(entries, ts[..|ts| - 1]);
      ApplyAllTotal(entries, ts[..|ts| - 1]);
      CountsApply(prev, ts[|ts| - 1]);
      SumIncrement(Counts(prev), ts[|ts| - 1].user);
    }
  }

  /** The number of listed users of the reactions of a list. */
  function ReactionUsers(rs: seq<Reaction>): nat {
    if rs == [] then 0 else ReactionUsers(rs[..|rs| - 1]) + |rs[|rs| - 1].users|
  }

  /** The number of (reaction, listed user) pairs over the messages that have reactions. */
  function ListedUsers(ms: seq<Message>): nat {
    if ms == [] then 0
    else ListedUsers(ms[..|ms| - 1]) + match ms[|ms| - 1].reactions
      case None => 0
      case Some(rs) => ReactionUsers(rs)
  }

  lemma {:induction false} ReactionTicksCount(rs: seq<Reaction>)
    ensures |ReactionTicks(rs)| == ReactionUsers(rs)
  {
    if rs != [] {
      ReactionTicksCount(rs[..|rs| - 1]);
    }
  }

  /** There is one tick per listed user of every reaction. */
  lemma {:induction false} TicksCount(ms: seq<Message>)
    ensures |Ticks(ms)| == ListedUsers(ms)
  {
    if ms != [] {
      TicksCount(ms[..|ms| - 1]);
      var m := ms[|ms| - 1];
      if m.reactions.Some? {
        ReactionTicksCount(m.reactions.value);
      }
    }
  }

  /** One tally run raises the users' totals together by exactly the number of listed users. */
  lemma TallyConserves(entries: map<string, UserEntry>, ms: seq<Message>)
    ensures Sum(Counts(ApplyAll(entries, Ticks(ms)))) == Sum(Counts(entries)) + ListedUsers(ms)
  {
    ApplyAllTotal(entries, Ticks(ms));
    TicksCount(ms);
  }

  // ---------------------------------------------------------------------------
  // Selection (`most_often_used_emoji`, the top three of `run_script`)

  ghost predicate Distinct(s: seq<string>) {
    forall i, j :: 0 <= i < j < |s| ==> s[i] != s[j]
  }

  /** The keys of a hash in some order (a Ruby Hash iterates in insertion order). */
  ghost function KeyList(keys: set<string>): (s: seq<string>)
    ensures |s| == |keys|
    ensures forall k :: k in s <==> k in keys
    ensures Distinct(s)
  {
    if keys == {} then []
    else
      var k :| k in keys;
      [k] + KeyList(keys - {k})
  }

  /** Heaviest first under the counters `w`. */
  ghost predicate SortedDesc(s: seq<string>, w: map<string, nat>) {
    forall i, j :: 0 <= i < j < |s| ==> Get(w, s[i]) >= Get(w, s[j])
  }

  /** Insert `k` before the first key that weighs no more than it. */
  function Insert(k: string, s: seq<string>, w: map<string, nat>): (r: seq<string>)
    ensures |r| == |s| + 1
    ensures forall x :: x in r <==> x == k || x in s
  {
    if s == [] then [k]
    else if Get(w, s[0]) <= Get(w, k) then [k] + s
    else [s[0]] + Insert(k, s[1..], w)
  }

  lemma {:induction false} InsertSorted(k: string, s: seq<string>, w: map<string, nat>)
    requires SortedDesc(s, w)
    ensures SortedDesc(Insert(k, s, w), w)
  {
    if s != [] && Get(w, s[0]) > Get(w, k) {
      var rest := Insert(k, s[1..], w);
      InsertSorted(k, s[1..], w);
      forall m | 0 <= m < |rest|
        ensures Get(w, s[0]) >= Get(w, rest[m])
      {
        assert rest[m] in rest;
        if rest[m] != k {
          var t :| 0 <= t < |s[1..]| && s[1..][t] == rest[m];
          assert s[t + 1] == rest[m];
        }
      }
      var r := [s[0]] + rest;
      forall i, j | 0 <= i < j < |r|
        ensures Get(w, r[i]) >= Get(w, r[j])
      {
        assert r[j] == rest[j - 1];
        if i > 0 {
          assert r[i] == rest[i - 1];
        }
      }
    }
  }

  lemma {:induction false} InsertDistinct(k: string, s: seq<string>, w: map<string, nat>)
    ensures Distinct(s) && k !in s ==> Distinct(Insert(k, s, w))
  {
    if Distinct(s) && k !in s && s != [] && Get(w, s[0]) > Get(w, k) {
      var rest := Insert(k, s[1..], w);
      InsertDistinct(k, s[1..], w);
      assert s[0] !in s[1..];
      var r := [s[0]] + rest;
      forall i, j | 0 <= i < j < |r|
        ensures r[i] != r[j]
      {
        assert r[j] == rest[j - 1] && r[j] in rest;
        if i > 0 {
          assert r[i] == rest[i - 1];
        }
      }
    }
  }

  /** `sort_by { |key, _| -w[key] }` on keys weighed by counters `w`: heaviest first; the order among equal weights is unspecified. */
  function SortDesc(s: seq<string>, w: map<string, nat>): (r: seq<string>)
    ensures |r| == |s|
    ensures forall x :: x in r <==> x in s
    ensures SortedDesc(r, w)
    ensures Distinct(s) ==> Distinct(r)
  {
    if s == [] then []
    else
      var rest := SortDesc(s[1..], w);
      InsertSorted(s[0], rest, w);
      assert Distinct(s) ==> s[0] !in s[1..];
      InsertDistinct(s[0], rest, w);
      Insert(s[0], rest, w)
  }

  /**
   * `most_often_used_emoji`: the first key of the emoji hash sorted by
   * decreasing counter. The hash is never empty for a user in the tally (see
   * `ApplyAllEmojiNonEmpty`).
   */
  ghost function MostOftenUsedEmoji(emoji: map<string, nat>): (name: string)
    requires emoji != map[]
    ensures name in emoji
  {
    var sorted := SortDesc(KeyList(emoji.Keys), emoji);
    assert |emoji.Keys| > 0 by {
      var k :| k in emoji;
    }
    sorted[0]
  }

  /** No emoji of the hash has a larger counter than the one returned. */
  lemma MostOftenUsedEmojiIsMax(emoji: map<string, nat>)
    requires emoji != map[]
    ensures forall k :: k in emoji ==> emoji[k] <= emoji[MostOftenUsedEmoji(emoji)]
  {
    var sorted := SortDesc(KeyList(emoji.Keys), emoji);
    assert sorted[0] == MostOftenUsedEmoji(emoji);
    forall k | k in emoji
      ensures Get(emoji, k) <= Get(emoji, sorted[0])
    {
      var j :| 0 <= j < |sorted| && sorted[j] == k;
      if j > 0 {
        assert Get(emoji, sorted[0]) >= Get(emoji, sorted[j]);
      }
    }
  }

  /** All users of the hash, most reactions first. */
  ghost function RankedUsers(hash: map<string, UserEntry>): (s: seq<string>)
    ensures |s| == |hash|
    ensures forall u :: u in s <==> u in hash
    ensures Distinct(s)
    ensures SortedDesc(s, Counts(hash))
  {
    SortDesc(KeyList(hash.Keys), Counts(hash))
  }

  /** `user_reaction_hash.sort_by { -reaction_count }.take(3)`: at most three distinct users of the hash. */
  ghost function TopThree(hash: map<string, UserEntry>): (top: seq<string>)
    ensures |top| == if |hash| < 3 then |hash| else 3
    ensures forall i :: 0 <= i < |top| ==> top[i] in hash
    ensures Distinct(top)
  {
    var ranked := RankedUsers(hash);
    var n := if |ranked| < 3 then |ranked| else 3;
    PrefixKeeps(ranked, n);
    ranked[..n]
  }

  /** A prefix keeps the positions, and so the members and their distinctness, of the sequence it is taken from. */
  lemma PrefixKeeps(s: seq<string>, n: nat)
    requires n <= |s|
    ensures forall i :: 0 <= i < n ==> s[..n][i] == s[i] && s[i] in s
    ensures Distinct(s) ==> Distinct(s[..n])
  {
  }

  /** The chosen users come in non-increasing order of total. */
  lemma TopThreeOrdered(hash: map<string, UserEntry>)
    ensures var top := TopThree(hash);
      forall i, j :: 0 <= i < j < |top| ==> hash[top[i]].reactionCount >= hash[top[j]].reactionCount
  {
    var ranked := RankedUsers(hash);
    var top := TopThree(hash);
    forall i, j | 0 <= i < j < |top|
      ensures hash[top[i]].reactionCount >= hash[top[j]].reactionCount
    {
      assert top[i] == ranked[i] && top[j] == ranked[j];
      assert Get(Counts(hash), ranked[i]) >= Get(Counts(hash), ranked[j]);
    }
  }

  /** Nobody left out reacted more than anyone chosen. */
  lemma TopThreeMaximal(hash: map<string, UserEntry>)
    ensures var top := TopThree(hash);
      forall u, i :: u in hash && u !in top && 0 <= i < |top| ==> hash[u].reactionCount <= hash[top[i]].reactionCount
  {
    var ranked := RankedUsers(hash);
    var top := TopThree(hash);
    forall u, i | u in hash && u !in top && 0 <= i < |top|
      ensures hash[u].reactionCount <= hash[top[i]].reactionCount
    {
      var k :| 0 <= k < |ranked| && ranked[k] == u;
      assert top[i] == ranked[i];
      assert k >= |top|;
      assert Get(Counts(hash), ranked[i]) >= Get(Counts(hash), ranked[k]);
    }
  }
}
