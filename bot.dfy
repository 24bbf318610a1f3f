/**
 * The reply lifecycle: deciding whether a submission or comment gets a new reply, an
 * edited reply or nothing; remembering replied items for one revisit; and, on the
 * revisit, deleting replies under removed items and handing edited items back.
 */
module Bot {
  import opened Wrappers
  import opened Text
  import opened Seqs
  import opened Crom
  import opened Parse
  import opened Search
  import Response

  // ---------------------------------------------------------------- reddit objects

  /** A reply the bot posted. */
  class Reply {
    var body: string
    var deleted: bool
    /** How many times the bot asked reddit to delete it. */
    var deletions: nat

    constructor (text: string)
      ensures body == text && !deleted && deletions == 0
    {
      body := text;
      deleted := false;
      deletions := 0;
    }

    method Delete()
      modifies this
      ensures deleted && deletions == old(deletions) + 1 && body == old(body)
    {
      deleted := true;
      deletions := deletions + 1;
    }

    method Edit(text: string)
      modifies this
      ensures body == text && deleted == old(deleted) && deletions == old(deletions)
    {
      body := text;
    }
  }

  /** The fields of a submission the bot reads; `author` is `None` once the account is gone. */
  datatype Submission = Submission(
    id: string,
    createdUtc: int,
    url: string,
    isSelf: bool,
    title: string,
    selftext: string,
    author: Option<string>,
    removedByCategory: Option<string>)

  /** The fields of a comment the bot reads. */
  datatype Comment = Comment(
    id: string,
    createdUtc: int,
    body: string,
    author: Option<string>,
    bannedBy: Option<string>,
    subreddit: string)

  // ---------------------------------------------------------------- the cache of replied items

  /** What the bot remembers about an item it replied to. */
  datatype Entry<T> = Entry(item: T, queries: seq<SearchQuery>, reply: Reply)

  /** `s` without any occurrence of `k`. */
  function Without(s: seq<string>, k: string): seq<string>
  {
    if s == [] then []
    else (if s[0] == k then [] else [s[0]]) + Without(s[1..], k)
  }

  lemma {:induction false} WithoutMembers(s: seq<string>, k: string)
    ensures forall x :: x in Without(s, k) <==> x in s && x != k
  {
    if s != [] {
      WithoutMembers(s[1..], k);
      assert s == [s[0]] + s[1..];
    }
  }

  function Replies<T>(entries: map<string, Entry<T>>): set<Reply>
  {
    set k | k in entries :: entries[k].reply
  }

  /** The replied items by id, in insertion order like a Python dict. */
  class Cache<T> {
    var entries: map<string, Entry<T>>
    var order: seq<string>

    ghost predicate Valid()
      reads this
    {
      && (forall k :: k in entries <==> k in order)
      && DistinctKeys(order, Id)
      && (forall k1, k2 :: k1 in entries && k2 in entries && k1 != k2 ==> entries[k1].reply != entries[k2].reply)
    }

    constructor ()
      ensures Valid() && entries == map[] && order == []
    {
      entries := map[];
      order := [];
    }

    /** `del cache[k]`. */
    method Remove(k: string)
      requires Valid()
      modifies this
      ensures Valid()
      ensures entries == old(entries) - {k} && order == Without(old(order), k)
    {
      WithoutDistinct(order, k);
      WithoutMembers(order, k);
      entries := entries - {k};
      order := Without(order, k);
    }

    /** `cache[k] = e`: a new key goes last, an existing key keeps its place. */
    method Put(k: string, e: Entry<T>)
      requires Valid()
      requires forall k2 :: k2 in entries && k2 != k ==> entries[k2].reply != e.reply
      modifies this
      ensures Valid()
      ensures entries == old(entries)[k := e]
      ensures order == if k in old(entries) then old(order) else old(order) + [k]
    {
      if k !in entries {
        order := order + [k];
      }
      entries := entries[k := e];
    }
  }

  lemma {:induction false} WithoutDistinct(s: seq<string>, k: string)
    requires DistinctKeys(s, Id)
    ensures DistinctKeys(Without(s, k), Id)
  {
    if s != [] {
      WithoutDistinct(s[1..], k);
      WithoutMembers(s[1..], k);
      var rest := Without(s[1..], k);
      if s[0] != k {
        assert s[0] !in rest;
        assert Without(s, k) == [s[0]] + rest;
      }
    }
  }

  lemma {:induction false} WithoutAppend(a: seq<string>, b: seq<string>, k: string)
    ensures Without(a + b, k) == Without(a, k) + Without(b, k)
  {
    if a == [] {
      assert a + b == b;
    } else {
      assert (a + b)[0] == a[0] && (a + b)[1..] == a[1..] + b;
      WithoutAppend(a[1..], b, k);
    }
  }

  lemma {:induction false} WithoutAbsent(s: seq<string>, k: string)
    requires k !in s
    ensures Without(s, k) == s
  {
    if s != [] {
      WithoutAbsent(s[1..], k);
      assert s == [s[0]] + s[1..];
    }
  }

  // ---------------------------------------------------------------- revisits

  /** The default revisit age: an item is revisited once two minutes have passed since it was created. */
  const DefaultRevisitAge: int := 120

  /** The entry's item was created before the cutoff, so the revisit takes it off the cache. */
  predicate Due<T>(e: Entry<T>, cutoff: int, created: T -> int)
  {
    created(e.item) < cutoff
  }

  /** The keys that stay, in order. */
  function Kept<T>(keys: seq<string>, entries: map<string, Entry<T>>, cutoff: int, created: T -> int): (r: seq<string>)
    requires forall k :: k in keys ==> k in entries
  {
    if keys == [] then []
    else
      var last := keys[|keys| - 1];
      Kept(keys[..|keys| - 1], entries, cutoff, created) + (if Due(entries[last], cutoff, created) then [] else [last])
  }

  lemma {:induction false} KeptMembers<T>(keys: seq<string>, entries: map<string, Entry<T>>, cutoff: int, created: T -> int)
    requires forall k :: k in keys ==> k in entries
    ensures forall k :: k in Kept(keys, entries, cutoff, created) <==> k in keys && !Due(entries[k], cutoff, created)
  {
    if keys != [] {
      KeptMembers(keys[..|keys| - 1], entries, cutoff, created);
      assert keys == keys[..|keys| - 1] + [keys[|keys| - 1]];
    }
  }

  /** The entries that stay. */
  function KeptEntries<T>(entries: map<string, Entry<T>>, cutoff: int, created: T -> int): (r: map<string, Entry<T>>)
    ensures forall k :: k in r <==> k in entries && !Due(entries[k], cutoff, created)
    ensures forall k :: k in r ==> r[k] == entries[k]
  {
    map k | k in entries && !Due(entries[k], cutoff, created) :: entries[k]
  }

  /** The reply of a due entry is deleted when the refetched item was removed. */
  predicate DeletesReply<T>(k: string, e: Entry<T>, cutoff: int, created: T -> int, refetch: string -> T, removed: T -> bool)
  {
    Due(e, cutoff, created) && removed(refetch(k))
  }

  /** What a due entry hands back: the refetched item with the cached queries and reply, when its text changed. */
  function RevisitOf<T>(k: string, e: Entry<T>, cutoff: int, created: T -> int, refetch: string -> T,
                        removed: T -> bool, text: T -> string): seq<Entry<T>>
  {
    if Due(e, cutoff, created) && !removed(refetch(k)) && text(refetch(k)) != text(e.item)
    then [Entry(refetch(k), e.queries, e.reply)] else []
  }

  /** The entries handed back for reprocessing, in cache order. */
  function Revisits<T>(keys: seq<string>, entries: map<string, Entry<T>>, cutoff: int, created: T -> int,
                       refetch: string -> T, removed: T -> bool, text: T -> string): seq<Entry<T>>
    requires forall k :: k in keys ==> k in entries
  {
    if keys == [] then []
    else
      var last := keys[|keys| - 1];
      Revisits(keys[..|keys| - 1], entries, cutoff, created, refetch, removed, text)
        + RevisitOf(last, entries[last], cutoff, created, refetch, removed, text)
  }

  /** The entries of `entries` whose keys are in `ks`. */
  function Restrict<T>(entries: map<string, Entry<T>>, ks: seq<string>): map<string, Entry<T>>
  {
    map k | k in entries && k in ks :: entries[k]
  }

  /**
   * One revisit pass over the cache: each due entry is removed; its reply is deleted when
   * the refetched item is gone, and the entry is handed back when the item's text changed.
   */
  method CheckRevisit<T>(cache: Cache<T>, cutoff: int, created: T -> int, id: T -> string,
                         refetch: string -> T, removed: T -> bool, text: T -> string) returns (revisits: seq<Entry<T>>)
    requires cache.Valid()
    requires forall k :: k in cache.entries ==> id(cache.entries[k].item) == k
    modifies cache, Replies(cache.entries)
    ensures cache.Valid()
    ensures cache.entries == KeptEntries(old(cache.entries), cutoff, created)
    ensures cache.order == Kept(old(cache.order), old(cache.entries), cutoff, created)
    ensures revisits == Revisits(old(cache.order), old(cache.entries), cutoff, created, refetch, removed, text)
    ensures forall k :: k in old(cache.entries) ==>
      var r := old(cache.entries)[k].reply;
      && r.body == old(r.body)
      && (if DeletesReply(k, old(cache.entries)[k], cutoff, created, refetch, removed)
          then r.deleted && r.deletions == old(r.deletions) + 1
          else r.deleted == old(r.deleted) && r.deletions == old(r.deletions))
  {
    var keys := cache.order;
    ghost var entries := cache.entries;
    ghost var replies, deletes, bodies, flags, counts := Snapshot(cache, cutoff, created, id, refetch, removed);
    revisits := RevisitAll(cache, keys, entries, replies, deletes, bodies, flags, counts, cutoff, created, id, refetch, removed, text);
    assert keys[..|keys|] == keys;
    KeptRestrict(keys, entries, cutoff, created);
    forall k | k in entries
      ensures var r := entries[k].reply;
        && r.body == old(r.body)
        && (if DeletesReply(k, entries[k], cutoff, created, refetch, removed)
            then r.deleted && r.deletions == old(r.deletions) + 1
            else r.deleted == old(r.deleted) && r.deletions == old(r.deletions))
    {
      var j :| 0 <= j < |keys| && keys[j] == k;
      assert replies[j] == entries[k].reply && deletes[j] == DeletesReply(k, entries[k], cutoff, created, refetch, removed);
      assert old(replies[j].body) == bodies[j] && old(replies[j].deleted) == flags[j] && old(replies[j].deletions) == counts[j];
    }
  }

  /** Records, before the revisit loop, each key's reply, whether it will be deleted, and the reply's current state. */
  ghost method Snapshot<T>(cache: Cache<T>, cutoff: int, created: T -> int, id: T -> string,
                           refetch: string -> T, removed: T -> bool)
      returns (replies: seq<Reply>, deletes: seq<bool>, bodies: seq<string>, flags: seq<bool>, counts: seq<nat>)
    requires cache.Valid()
    requires forall k :: k in cache.entries ==> id(cache.entries[k].item) == k
    ensures Tracked(cache.order, cache.entries, replies, deletes, cutoff, created, id, refetch, removed)
    ensures cache.entries == Restrict(cache.entries, cache.order)
    ensures ReplyEffects(replies, deletes, bodies, flags, counts, 0)
  {
    var keys := cache.order;
    var entries := cache.entries;
    replies := seq(|keys|, j requires 0 <= j < |keys| => entries[keys[j]].reply);
    deletes := seq(|keys|, j requires 0 <= j < |keys| => DeletesReply(keys[j], entries[keys[j]], cutoff, created, refetch, removed));
    bodies := seq(|keys|, j requires 0 <= j < |keys| reads replies => replies[j].body);
    flags := seq(|keys|, j requires 0 <= j < |keys| reads replies => replies[j].deleted);
    counts := seq(|keys|, j requires 0 <= j < |keys| reads replies => replies[j].deletions);
    forall a, b | 0 <= a < b < |keys| ensures replies[a] != replies[b] {
      assert keys[a] != keys[b];
    }
    assert cache.entries == Restrict(entries, keys);
  }

  /** The keys in cache order, with each key's reply and whether the revisit deletes it. */
  ghost predicate Tracked<T>(keys: seq<string>, entries: map<string, Entry<T>>, replies: seq<Reply>, deletes: seq<bool>,
                             cutoff: int, created: T -> int, id: T -> string, refetch: string -> T, removed: T -> bool)
  {
    && DistinctKeys(keys, Id) && (forall k :: k in keys ==> k in entries)
    && (forall k :: k in entries ==> id(entries[k].item) == k)
    && |replies| == |keys| && (forall j :: 0 <= j < |keys| ==> replies[j] == entries[keys[j]].reply)
    && |deletes| == |keys| && (forall j :: 0 <= j < |keys| ==> deletes[j] == DeletesReply(keys[j], entries[keys[j]], cutoff, created, refetch, removed))
    && (forall a, b :: 0 <= a < b < |keys| ==> replies[a] != replies[b])
  }

  /** The revisit loop, over the keys in cache order. */
  method RevisitAll<T>(cache: Cache<T>, keys: seq<string>, ghost entries: map<string, Entry<T>>,
                       ghost replies: seq<Reply>, ghost deletes: seq<bool>,
                       ghost bodies: seq<string>, ghost flags: seq<bool>, ghost counts: seq<nat>,
                       cutoff: int, created: T -> int, id: T -> string,
                       refetch: string -> T, removed: T -> bool, text: T -> string) returns (revisits: seq<Entry<T>>)
    requires Tracked(keys, entries, replies, deletes, cutoff, created, id, refetch, removed)
    requires cache.Valid() && cache.order == keys && cache.entries == Restrict(entries, keys)
    requires ReplyEffects(replies, deletes, bodies, flags, counts, 0)
    modifies cache, set j | 0 <= j < |replies| :: replies[j]
    ensures cache.Valid()
    ensures cache.order == Kept(keys, entries, cutoff, created)
    ensures cache.entries == Restrict(entries, cache.order)
    ensures revisits == Revisits(keys, entries, cutoff, created, refetch, removed, text)
    ensures ReplyEffects(replies, deletes, bodies, flags, counts, |keys|)
  {
    revisits := [];
    assert keys[..0] == [] && keys[0..] == keys;
    for i := 0 to |keys|
      invariant cache.Valid()
      invariant cache.order == Kept(keys[..i], entries, cutoff, created) + keys[i..]
      invariant cache.entries == Restrict(entries, cache.order)
      invariant revisits == Revisits(keys[..i], entries, cutoff, created, refetch, removed, text)
      invariant ReplyEffects(replies, deletes, bodies, flags, counts, i)
    {
      var back := RevisitStep(cache, keys, i, entries, replies, deletes, bodies, flags, counts, cutoff, created, id, refetch, removed, text);
      revisits := revisits + back;
    }
    assert keys[..|keys|] == keys;
  }

  /** Restricting the entries to the kept keys leaves the kept entries. */
  lemma KeptRestrict<T>(keys: seq<string>, entries: map<string, Entry<T>>, cutoff: int, created: T -> int)
    requires forall k :: k in keys <==> k in entries
    ensures Restrict(entries, Kept(keys, entries, cutoff, created)) == KeptEntries(entries, cutoff, created)
  {
    KeptMembers(keys, entries, cutoff, created);
  }

  /** The replies `[..done]` had their deletions done, the rest are as they were. */
  ghost predicate ReplyEffects(replies: seq<Reply>, deletes: seq<bool>, bodies: seq<string>, flags: seq<bool>, counts: seq<nat>, done: nat)
    reads set j | 0 <= j < |replies| :: replies[j]
  {
    && |deletes| == |replies| && |bodies| == |replies| && |flags| == |replies| && |counts| == |replies|
    && forall j :: 0 <= j < |replies| ==>
      && replies[j].body == bodies[j]
      && (if j < done && deletes[j]
          then replies[j].deleted && replies[j].deletions == counts[j] + 1
          else replies[j].deleted == flags[j] && replies[j].deletions == counts[j])
  }

  /** One turn of the revisit loop. */
  method RevisitStep<T>(cache: Cache<T>, keys: seq<string>, i: nat, ghost entries: map<string, Entry<T>>,
                        ghost replies: seq<Reply>, ghost deletes: seq<bool>,
                        ghost bodies: seq<string>, ghost flags: seq<bool>, ghost counts: seq<nat>,
                        cutoff: int, created: T -> int, id: T -> string,
                        refetch: string -> T, removed: T -> bool, text: T -> string) returns (back: seq<Entry<T>>)
    requires i < |keys| && Tracked(keys, entries, replies, deletes, cutoff, created, id, refetch, removed)
    requires cache.Valid()
    requires cache.order == Kept(keys[..i], entries, cutoff, created) + keys[i..]
    requires cache.entries == Restrict(entries, cache.order)
    requires ReplyEffects(replies, deletes, bodies, flags, counts, i)
    modifies cache, replies[i]
    ensures cache.Valid()
    ensures cache.order == Kept(keys[..i + 1], entries, cutoff, created) + keys[i + 1..]
    ensures cache.entries == Restrict(entries, cache.order)
    ensures back == RevisitOf(keys[i], entries[keys[i]], cutoff, created, refetch, removed, text)
    ensures Revisits(keys[..i + 1], entries, cutoff, created, refetch, removed, text)
      == Revisits(keys[..i], entries, cutoff, created, refetch, removed, text) + back
    ensures ReplyEffects(replies, deletes, bodies, flags, counts, i + 1)
  {
    var k := keys[i];
    RevisitStepFacts(keys, i, entries, cache.order, cutoff, created, refetch, removed, text);
    var e := cache.entries[k];
    back := RevisitEntry(cache, k, e, cutoff, created, id, refetch, removed, text);
  }

  /** What the loop body needs to know about the current key. */
  lemma RevisitStepFacts<T>(keys: seq<string>, i: nat, entries: map<string, Entry<T>>, order: seq<string>, cutoff: int,
                            created: T -> int, refetch: string -> T, removed: T -> bool, text: T -> string)
    requires DistinctKeys(keys, Id) && i < |keys| && forall k :: k in keys ==> k in entries
    requires order == Kept(keys[..i], entries, cutoff, created) + keys[i..]
    ensures keys[i] in order && keys[i] in Restrict(entries, order)
    ensures Restrict(entries, Without(order, keys[i])) == Restrict(entries, order) - {keys[i]}
    ensures Due(entries[keys[i]], cutoff, created) ==>
      Without(order, keys[i]) == Kept(keys[..i + 1], entries, cutoff, created) + keys[i + 1..]
    ensures !Due(entries[keys[i]], cutoff, created) ==>
      order == Kept(keys[..i + 1], entries, cutoff, created) + keys[i + 1..]
    ensures Revisits(keys[..i + 1], entries, cutoff, created, refetch, removed, text)
      == Revisits(keys[..i], entries, cutoff, created, refetch, removed, text) + RevisitOf(keys[i], entries[keys[i]], cutoff, created, refetch, removed, text)
  {
    assert keys[i..][0] == keys[i];
    assert keys[i] in order;
    PrefixStep(keys, i, entries, cutoff, created, refetch, removed, text);
    RemoveStep(keys, i, entries, cutoff, created);
    RestrictWithout(entries, order, keys[i]);
  }

  lemma RestrictWithout<T>(entries: map<string, Entry<T>>, order: seq<string>, k: string)
    ensures Restrict(entries, Without(order, k)) == Restrict(entries, order) - {k}
  {
    WithoutMembers(order, k);
    var a, b := Restrict(entries, Without(order, k)), Restrict(entries, order) - {k};
    assert forall x :: x in a <==> x in b;
    assert forall x :: x in a ==> a[x] == b[x];
  }

  /** The loop body: a due entry leaves the cache, then its reply is deleted or the entry handed back. */
  method RevisitEntry<T>(cache: Cache<T>, k: string, e: Entry<T>, cutoff: int, created: T -> int, id: T -> string,
                         refetch: string -> T, removed: T -> bool, text: T -> string) returns (back: seq<Entry<T>>)
    requires cache.Valid() && k in cache.entries && cache.entries[k] == e && id(e.item) == k
    modifies cache, e.reply
    ensures cache.Valid()
    ensures back == RevisitOf(k, e, cutoff, created, refetch, removed, text)
    ensures Due(e, cutoff, created) ==> cache.entries == old(cache.entries) - {k} && cache.order == Without(old(cache.order), k)
    ensures !Due(e, cutoff, created) ==> cache.entries == old(cache.entries) && cache.order == old(cache.order)
    ensures e.reply.body == old(e.reply.body)
    ensures if DeletesReply(k, e, cutoff, created, refetch, removed)
      then e.reply.deleted && e.reply.deletions == old(e.reply.deletions) + 1
      else e.reply.deleted == old(e.reply.deleted) && e.reply.deletions == old(e.reply.deletions)
  {
    back := [];
    if created(e.item) < cutoff {
      cache.Remove(id(e.item));
      var updated := refetch(id(e.item));
      if removed(updated) {
        e.reply.Delete();
      } else if text(updated) != text(e.item) {
        back := [Entry(updated, e.queries, e.reply)];
      }
    }
  }

  /** Removing the current key from the remaining order leaves the kept prefix and the rest. */
  lemma RemoveStep<T>(keys: seq<string>, i: nat, entries: map<string, Entry<T>>, cutoff: int, created: T -> int)
    requires DistinctKeys(keys, Id) && i < |keys| && forall k :: k in keys ==> k in entries
    ensures Without(Kept(keys[..i], entries, cutoff, created) + keys[i..], keys[i]) == Kept(keys[..i], entries, cutoff, created) + keys[i + 1..]
  {
    var k := keys[i];
    var kept := Kept(keys[..i], entries, cutoff, created);
    var rest := keys[i + 1..];
    KeptMembers(keys[..i], entries, cutoff, created);
    assert k !in kept;
    assert k !in rest;
    WithoutAbsent(kept, k);
    WithoutAbsent(rest, k);
    assert keys[i..] == [k] + rest;
    assert Without([k] + rest, k) == Without(rest, k);
    WithoutAppend(kept, keys[i..], k);
  }

  /** Taking one more key into the processed prefix. */
  lemma PrefixStep<T>(keys: seq<string>, i: nat, entries: map<string, Entry<T>>, cutoff: int, created: T -> int,
                      refetch: string -> T, removed: T -> bool, text: T -> string)
    requires i < |keys| && forall k :: k in keys ==> k in entries
    ensures Kept(keys[..i + 1], entries, cutoff, created) + keys[i + 1..]
      == if Due(entries[keys[i]], cutoff, created) then Kept(keys[..i], entries, cutoff, created) + keys[i + 1..]
         else Kept(keys[..i], entries, cutoff, created) + keys[i..]
    ensures Revisits(keys[..i + 1], entries, cutoff, created, refetch, removed, text)
      == Revisits(keys[..i], entries, cutoff, created, refetch, removed, text) + RevisitOf(keys[i], entries[keys[i]], cutoff, created, refetch, removed, text)
    ensures forall k :: k in keys[..i + 1] <==> k in keys[..i] || k == keys[i]
  {
    TakeOneMore(keys, i);
    assert keys[..i + 1][..i] == keys[..i];
    assert keys[i..] == [keys[i]] + keys[i + 1..];
  }

  // ---------------------------------------------------------------- the two revisit passes

  function SubmissionCreated(s: Submission): int { s.createdUtc }

  /** A refetched submission is gone when its author is, or when it was removed. */
  predicate SubmissionRemoved(s: Submission)
  {
    s.author.None? || s.removedByCategory.Some?
  }

  function Selftext(s: Submission): string { s.selftext }

  function SubmissionId(s: Submission): string { s.id }

  function CommentCreated(c: Comment): int { c.createdUtc }

  /** A refetched comment is gone when its author is, or when a moderator banned it. */
  predicate CommentRemoved(c: Comment)
  {
    c.author.None? || c.bannedBy.Some?
  }

  function CommentText(c: Comment): string { c.body }

  function CommentId(c: Comment): string { c.id }

  /**
   * The revisit of replied text submissions once `revisitAge` seconds (two minutes unless
   * given) have passed since the submission was created, `now` being the current time and
   * `refetch` reddit's current copy of a submission.
   */
  method CheckRevisitSubmissions(cache: Cache<Submission>, now: int, refetch: string -> Submission, revisitAge: int := DefaultRevisitAge)
    returns (revisits: seq<Entry<Submission>>)
    requires cache.Valid()
    requires forall k :: k in cache.entries ==> cache.entries[k].item.id == k
    modifies cache, Replies(cache.entries)
    ensures cache.Valid()
    ensures cache.entries == KeptEntries(old(cache.entries), now - revisitAge, SubmissionCreated)
    ensures cache.order == Kept(old(cache.order), old(cache.entries), now - revisitAge, SubmissionCreated)
    ensures revisits == Revisits(old(cache.order), old(cache.entries), now - revisitAge, SubmissionCreated,
                                 refetch, SubmissionRemoved, Selftext)
    ensures forall k :: k in old(cache.entries) ==>
      var r := old(cache.entries)[k].reply;
      && r.body == old(r.body)
      && (if DeletesReply(k, old(cache.entries)[k], now - revisitAge, SubmissionCreated, refetch, SubmissionRemoved)
          then r.deleted && r.deletions == old(r.deletions) + 1
          else r.deleted == old(r.deleted) && r.deletions == old(r.deletions))
  {
    assert forall k :: k in cache.entries ==> SubmissionId(cache.entries[k].item) == k;
    revisits := CheckRevisit(cache, now - revisitAge, SubmissionCreated, SubmissionId, refetch, SubmissionRemoved, Selftext);
  }

  /** The revisit of replied comments; like the submissions', with the comment's own removal test and text. */
  method CheckRevisitComments(cache: Cache<Comment>, now: int, refetch: string -> Comment, revisitAge: int := DefaultRevisitAge)
    returns (revisits: seq<Entry<Comment>>)
    requires cache.Valid()
    requires forall k :: k in cache.entries ==> cache.entries[k].item.id == k
    modifies cache, Replies(cache.entries)
    ensures cache.Valid()
    ensures cache.entries == KeptEntries(old(cache.entries), now - revisitAge, CommentCreated)
    ensures cache.order == Kept(old(cache.order), old(cache.entries), now - revisitAge, CommentCreated)
    ensures revisits == Revisits(old(cache.order), old(cache.entries), now - revisitAge, CommentCreated,
                                 refetch, CommentRemoved, CommentText)
    ensures forall k :: k in old(cache.entries) ==>
      var r := old(cache.entries)[k].reply;
      && r.body == old(r.body)
      && (if DeletesReply(k, old(cache.entries)[k], now - revisitAge, CommentCreated, refetch, CommentRemoved)
          then r.deleted && r.deletions == old(r.deletions) + 1
          else r.deleted == old(r.deleted) && r.deletions == old(r.deletions))
  {
    assert forall k :: k in cache.entries ==> CommentId(cache.entries[k].item) == k;
    revisits := CheckRevisit(cache, now - revisitAge, CommentCreated, CommentId, refetch, CommentRemoved, CommentText);
  }

  /**
   * An entry is handed back exactly when its key is cached, it is due, the refetched item
   * was not removed and its text changed; it then carries the refetched item and the
   * cached queries and reply. A removed item is never handed back.
   */
  lemma {:induction false} RevisitsMeaning<T>(keys: seq<string>, entries: map<string, Entry<T>>, cutoff: int,
                                              created: T -> int, refetch: string -> T, removed: T -> bool, text: T -> string)
    requires forall k :: k in keys ==> k in entries
    ensures forall e :: e in Revisits(keys, entries, cutoff, created, refetch, removed, text) <==>
      exists k :: k in keys && Due(entries[k], cutoff, created) && !removed(refetch(k))
        && text(refetch(k)) != text(entries[k].item) && e == Entry(refetch(k), entries[k].queries, entries[k].reply)
    ensures forall e :: e in Revisits(keys, entries, cutoff, created, refetch, removed, text) ==> !removed(e.item)
  {
    if keys != [] {
      var init := keys[..|keys| - 1];
      var last := keys[|keys| - 1];
      RevisitsMeaning(init, entries, cutoff, created, refetch, removed, text);
      assert keys == init + [last];
      assert forall k :: k in keys <==> k in init || k == last;
    }
  }

  // ---------------------------------------------------------------- processing one item

  /** The wiki host every known alias of the SCP wiki is rewritten to. */
  const Wikidot: string := "//scp-wiki.wikidot.com"

  /**
   * A link as the search service stores it: `clean` is the URL library's work (the query
   * dropped, the link made absolute against reddit), then https becomes http and the
   * wiki's aliases become its wikidot host.
   */
  function NormalizePermalink(input: string, clean: string -> string): (r: string)
  {
    var http := ReplaceAll(clean(input), "https://", "http://");
    ReplaceAll(ReplaceAll(ReplaceAll(http, "//scpwiki.com", Wikidot), "//www.scpwiki.com", Wikidot), "//www.scp-wiki.net", Wikidot)
  }

  lemma HttpFacts()
    ensures NoStartInside("http://", "https://") && LeadsLikePattern("http://", "https://", "https://")
  {
    var r, p := "http://", "https://";
    forall k | 0 <= k < |r| ensures MismatchFrom(r, p, k) {
      if k == 0 {
        assert r[k + 4] != p[4];
      } else {
        assert r[k + 0] != p[0];
      }
    }
    forall k | 1 <= k < |p| ensures !StartsWith(r, p[k..]) {
      assert p[k..][0] == p[k];
    }
  }

  lemma WikidotKeepsHttpsAbsent(q: string)
    requires q == "//scpwiki.com" || q == "//www.scpwiki.com" || q == "//www.scp-wiki.net"
    ensures NoStartInside(Wikidot, "https://") && LeadsLikePattern(Wikidot, "https://", q)
  {
    var r, p := Wikidot, "https://";
    forall k | 0 <= k < |r| ensures MismatchFrom(r, p, k) {
      assert r[k + 0] != p[0];
    }
    forall k | 1 <= k < |p| && StartsWith(r, p[k..]) ensures StartsWith(q, p[k..]) {
      assert p[k..][0] == p[k];
      if k == 6 {
        assert p[k..] == q[..2];
      } else {
        assert k == 7 && p[k..] == q[..1];
      }
    }
  }

  lemma WikidotHostFacts(p: string, q: string)
    requires p == "//scpwiki.com" || p == "//www.scpwiki.com" || p == "//www.scp-wiki.net"
    ensures NoStartInside(Wikidot, p) && LeadsLikePattern(Wikidot, p, q)
  {
    WikidotHostMismatch(p);
    WikidotHostNotLeading(p);
  }

  lemma WikidotHostMismatch(p: string)
    requires p == "//scpwiki.com" || p == "//www.scpwiki.com" || p == "//www.scp-wiki.net"
    ensures NoStartInside(Wikidot, p)
  {
    var r := Wikidot;
    forall k | 0 <= k < |r| ensures MismatchFrom(r, p, k) {
      if k == 0 {
        assert r[k + 5] != p[5];
      } else if k == 1 {
        assert r[k + 1] != p[1];
      } else {
        assert r[k + 0] != p[0];
      }
    }
  }

  lemma WikidotHostNotLeading(p: string)
    requires p == "//scpwiki.com" || p == "//www.scpwiki.com" || p == "//www.scp-wiki.net"
    ensures forall k :: 1 <= k < |p| ==> !StartsWith(Wikidot, p[k..])
  {
    var r := Wikidot;
    forall k | 1 <= k < |p| ensures !StartsWith(r, p[k..]) {
      assert p[k..][0] == p[k];
      if k == 1 {
        assert p[k..][1] != r[1];
      }
    }
  }

  /** A normalised link holds no "https://" and none of the wiki's three alias hosts. */
  lemma NormalizeRewrites(input: string, clean: string -> string)
    ensures var r := NormalizePermalink(input, clean);
      && !Contains(r, "https://")
      && !Contains(r, "//scpwiki.com") && !Contains(r, "//www.scpwiki.com") && !Contains(r, "//www.scp-wiki.net")
  {
    var h1, h2, h3 := "//scpwiki.com", "//www.scpwiki.com", "//www.scp-wiki.net";
    var s1 := ReplaceAll(clean(input), "https://", "http://");
    var s2 := ReplaceAll(s1, h1, Wikidot);
    var s3 := ReplaceAll(s2, h2, Wikidot);
    HttpFacts();
    ReplaceRemoves(clean(input), "https://", "http://");
    WikidotKeepsHttpsAbsent(h1);
    WikidotKeepsHttpsAbsent(h2);
    WikidotKeepsHttpsAbsent(h3);
    ReplaceKeepsAbsent(s1, h1, Wikidot, "https://");
    ReplaceKeepsAbsent(s2, h2, Wikidot, "https://");
    ReplaceKeepsAbsent(s3, h3, Wikidot, "https://");
    WikidotHostFacts(h1, h1);
    WikidotHostFacts(h1, h2);
    WikidotHostFacts(h1, h3);
    WikidotHostFacts(h2, h2);
    WikidotHostFacts(h2, h3);
    WikidotHostFacts(h3, h3);
    ReplaceRemoves(s1, h1, Wikidot);
    ReplaceKeepsAbsent(s2, h2, Wikidot, h1);
    ReplaceKeepsAbsent(s3, h3, Wikidot, h1);
    ReplaceRemoves(s2, h2, Wikidot);
    ReplaceKeepsAbsent(s3, h3, Wikidot, h2);
    ReplaceRemoves(s3, h3, Wikidot);
  }

  /** What the bot does with an item: nothing, or reply with these queries' text; or the search failed. */
  datatype Decision = Ignore | SearchFailed(error: SearchError) | Answer(queries: seq<SearchQuery>, text: string)

  /**
   * The common tail of both handlers: no queries, or the same queries as the reply being
   * revisited, or no results, mean nothing to say.
   */
  function AnswerFor(queries: seq<SearchQuery>, previousQueries: Option<seq<SearchQuery>>, client: Client,
                     isSubmission: bool, submissionUrl: Option<string>,
                     host: string -> string, posted: Page -> Option<string>): Decision
  {
    if queries == [] || previousQueries == Some(queries) then Ignore
    else match SearchSpec(queries, client)
      case Err(e) => SearchFailed(e)
      case Ok(results) =>
        if results == [] then Ignore
        else Answer(queries, Response.ResponseText(results, isSubmission, submissionUrl, host, posted))
  }

  /**
   * A submission's queries: its link's own, when it is a link post to a wiki host; then the
   * title's; then, for a text post, the text's.
   */
  function SubmissionQueries(s: Submission, validHosts: seq<string>, host: string -> string, clean: string -> string,
                             sanitize: string -> string, today: Date): seq<SearchQuery>
  {
    var normalized := NormalizePermalink(s.url, clean);
    (if !s.isSelf && LowerStr(host(normalized)) in validHosts then [SearchQuery(Url, normalized, None)] else [])
    + ParseSpec(s.title, SubmissionTitle, sanitize, today)
    + (if s.isSelf then ParseSpec(s.selftext, SubmissionSelftext, sanitize, today) else [])
  }

  /** What the submission handler decides, before it looks at any previous reply. */
  function SubmissionDecision(s: Submission, start: int, validHosts: seq<string>, host: string -> string,
                              clean: string -> string, sanitize: string -> string, today: Date, client: Client,
                              posted: Page -> Option<string>, previousQueries: Option<seq<SearchQuery>>): Decision
  {
    if s.createdUtc <= start then Ignore
    else
      AnswerFor(SubmissionQueries(s, validHosts, host, clean, sanitize, today), previousQueries, client,
                true, if s.isSelf then None else Some(NormalizePermalink(s.url, clean)), host, posted)
  }

  /** Comments come from the watched subreddits' stream, or from the inbox as mentions. */
  datatype CommentKind = Regular | Mention

  /** What the comment handler decides, before it looks at any previous reply. */
  function CommentDecision(c: Comment, kind: CommentKind, start: int, botAccounts: seq<string>,
                           commentSubreddits: seq<string>, sanitize: string -> string, today: Date, client: Client,
                           host: string -> string, posted: Page -> Option<string>,
                           previousQueries: Option<seq<SearchQuery>>): Decision
  {
    if c.createdUtc <= start then Ignore
    else if c.author.None? then Ignore
    else if LowerStr(c.author.value) in botAccounts then Ignore
    else if kind == Regular && Response.Truthy(c.bannedBy) then Ignore
    else if kind == Mention && commentSubreddits != [] && LowerStr(c.subreddit) in commentSubreddits then Ignore
    else AnswerFor(ParseSpec(c.body, CommentBody, sanitize, today), previousQueries, client, false, None, host, posted)
  }

  /**
   * A submission's queries: the link's own query, with no site, exactly for a link post to a
   * wiki host; then the title's queries; then the text's, only for a text post.
   */
  lemma SubmissionQueriesShape(s: Submission, validHosts: seq<string>, host: string -> string, clean: string -> string,
                               sanitize: string -> string, today: Date)
    ensures var r := SubmissionQueries(s, validHosts, host, clean, sanitize, today);
      var normalized := NormalizePermalink(s.url, clean);
      var linked := !s.isSelf && LowerStr(host(normalized)) in validHosts;
      var title := ParseSpec(s.title, SubmissionTitle, sanitize, today);
      var n := if linked then 1 else 0;
      && ((exists q :: q in r && q.siteUrl.None?) <==> linked)
      && (linked ==> r[0] == SearchQuery(Url, normalized, None))
      && |r| >= n + |title| && r[n..n + |title|] == title
      && r[n + |title|..] == (if s.isSelf then ParseSpec(s.selftext, SubmissionSelftext, sanitize, today) else [])
  {
    var normalized := NormalizePermalink(s.url, clean);
    var linked := !s.isSelf && LowerStr(host(normalized)) in validHosts;
    var link := if linked then [SearchQuery(Url, normalized, None)] else [];
    var title := ParseSpec(s.title, SubmissionTitle, sanitize, today);
    var text := if s.isSelf then ParseSpec(s.selftext, SubmissionSelftext, sanitize, today) else [];
    var r := link + title + text;
    QueriesHaveSite(s.title, SubmissionTitle, sanitize, today);
    QueriesHaveSite(s.selftext, SubmissionSelftext, sanitize, today);
    assert r[|link|..|link| + |title|] == title;
    assert r[|link| + |title|..] == text;
    if linked {
      assert r[0] in r;
    }
  }

  /** The submission handler answers exactly a new item with queries that differ from before and results. */
  lemma SubmissionDecisionMeaning(s: Submission, start: int, validHosts: seq<string>, host: string -> string,
                                  clean: string -> string, sanitize: string -> string, today: Date, client: Client,
                                  posted: Page -> Option<string>, previousQueries: Option<seq<SearchQuery>>)
    ensures var d := SubmissionDecision(s, start, validHosts, host, clean, sanitize, today, client, posted, previousQueries);
      var qs := SubmissionQueries(s, validHosts, host, clean, sanitize, today);
      var asked := s.createdUtc > start && qs != [] && previousQueries != Some(qs);
      && (d.SearchFailed? <==> asked && SearchSpec(qs, client).Err?)
      && (d.Answer? <==> asked && SearchSpec(qs, client).Ok? && SearchSpec(qs, client).value != [])
      && (d.Answer? ==>
            && d.queries == qs
            && d.text == Response.ResponseText(SearchSpec(qs, client).value, true,
                                             if s.isSelf then None else Some(NormalizePermalink(s.url, clean)), host, posted))
  {
  }

  /**
   * The comment handler ignores an old comment, a deleted author, a bot account, a banned
   * comment from the stream, a mention from a watched subreddit, and a comment whose
   * queries are none, unchanged or without results; it answers every other comment.
   */
  lemma CommentDecisionMeaning(c: Comment, kind: CommentKind, start: int, botAccounts: seq<string>,
                               commentSubreddits: seq<string>, sanitize: string -> string, today: Date, client: Client,
                               host: string -> string, posted: Page -> Option<string>,
                               previousQueries: Option<seq<SearchQuery>>)
    ensures var d := CommentDecision(c, kind, start, botAccounts, commentSubreddits, sanitize, today, client, host, posted, previousQueries);
      var qs := ParseSpec(c.body, CommentBody, sanitize, today);
      var admitted := c.createdUtc > start && c.author.Some? && LowerStr(c.author.value) !in botAccounts
        && !(kind == Regular && c.bannedBy.Some? && c.bannedBy.value != "")
        && !(kind == Mention && commentSubreddits != [] && LowerStr(c.subreddit) in commentSubreddits);
      var asked := admitted && qs != [] && previousQueries != Some(qs);
      && (d.SearchFailed? <==> asked && SearchSpec(qs, client).Err?)
      && (d.Answer? <==> asked && SearchSpec(qs, client).Ok? && SearchSpec(qs, client).value != [])
      && (d.Answer? ==> d.queries == qs && d.text == Response.ResponseText(SearchSpec(qs, client).value, false, None, host, posted))
  {
  }

  /**
   * `_process_submission`: parse, search and reply. With no previous reply an answer is
   * posted and cached under the submission's id; with one, it is edited when its text
   * differs, and the cache is left alone. A failed search escapes as an error.
   */
  method ProcessSubmission(cache: Cache<Submission>, s: Submission, start: int, validHosts: seq<string>,
                           host: string -> string, clean: string -> string, sanitize: string -> string, today: Date,
                           client: Client, posted: Page -> Option<string>,
                           previousQueries: Option<seq<SearchQuery>>, previousReply: Reply?)
    returns (r: Result<bool, SearchError>)
    requires cache.Valid()
    modifies cache, previousReply
    ensures cache.Valid()
    ensures var d := SubmissionDecision(s, start, validHosts, host, clean, sanitize, today, client, posted, previousQueries);
      && (d.Ignore? ==> r == Ok(false))
      && (d.SearchFailed? ==> r == Err(d.error))
      && (d.Answer? && previousReply != null ==> r == Ok(old(previousReply.body) != d.text))
      && (d.Answer? && previousReply == null ==> r == Ok(true))
      && (previousReply != null ==>
            && previousReply.body == (if d.Answer? then d.text else old(previousReply.body))
            && previousReply.deleted == old(previousReply.deleted) && previousReply.deletions == old(previousReply.deletions))
      && (if d.Answer? && previousReply == null
          then s.id in cache.entries
            && cache.entries == old(cache.entries)[s.id := cache.entries[s.id]]
            && cache.entries[s.id].item == s && cache.entries[s.id].queries == d.queries
            && fresh(cache.entries[s.id].reply) && cache.entries[s.id].reply.body == d.text
            && !cache.entries[s.id].reply.deleted
            && cache.order == (if s.id in old(cache.entries) then old(cache.order) else old(cache.order) + [s.id])
          else cache.entries == old(cache.entries) && cache.order == old(cache.order))
  {
    ghost var d := SubmissionDecision(s, start, validHosts, host, clean, sanitize, today, client, posted, previousQueries);
    if s.createdUtc <= start {
      return Ok(false);
    }
    var normalized := NormalizePermalink(s.url, clean);
    var queries := CollectSubmissionQueries(s, validHosts, host, clean, sanitize, today);
    r := AnswerQueries(cache, s.id, s, queries, previousQueries, client,
                       true, if s.isSelf then None else Some(normalized), host, posted, previousReply);
  }

  /** The submission's queries, gathered as the handler does: link, then title, then text. */
  method CollectSubmissionQueries(s: Submission, validHosts: seq<string>, host: string -> string, clean: string -> string,
                                  sanitize: string -> string, today: Date)
    returns (queries: seq<SearchQuery>)
    ensures queries == SubmissionQueries(s, validHosts, host, clean, sanitize, today)
  {
    var normalized := NormalizePermalink(s.url, clean);
    var fromLink: seq<SearchQuery> := [];
    if !s.isSelf && LowerStr(host(normalized)) in validHosts {
      fromLink := [SearchQuery(Url, normalized, None)];
    }
    var fromTitle := Parse.Parse(s.title, SubmissionTitle, sanitize, today);
    var fromText: seq<SearchQuery> := [];
    if s.isSelf {
      fromText := Parse.Parse(s.selftext, SubmissionSelftext, sanitize, today);
    }
    queries := fromLink + fromTitle + fromText;
  }

  /**
   * `_process_comment`: the comment filters, then parse, search and reply as for a
   * submission, with the reply formatted for a comment.
   */
  method ProcessComment(cache: Cache<Comment>, c: Comment, kind: CommentKind, start: int, botAccounts: seq<string>,
                        commentSubreddits: seq<string>, sanitize: string -> string, today: Date, client: Client,
                        host: string -> string, posted: Page -> Option<string>,
                        previousQueries: Option<seq<SearchQuery>>, previousReply: Reply?)
    returns (r: Result<bool, SearchError>)
    requires cache.Valid()
    modifies cache, previousReply
    ensures cache.Valid()
    ensures var d := CommentDecision(c, kind, start, botAccounts, commentSubreddits, sanitize, today, client, host, posted, previousQueries);
      && (d.Ignore? ==> r == Ok(false))
      && (d.SearchFailed? ==> r == Err(d.error))
      && (d.Answer? && previousReply != null ==> r == Ok(old(previousReply.body) != d.text))
      && (d.Answer? && previousReply == null ==> r == Ok(true))
      && (previousReply != null ==>
            && previousReply.body == (if d.Answer? then d.text else old(previousReply.body))
            && previousReply.deleted == old(previousReply.deleted) && previousReply.deletions == old(previousReply.deletions))
      && (if d.Answer? && previousReply == null
          then c.id in cache.entries
            && cache.entries == old(cache.entries)[c.id := cache.entries[c.id]]
            && cache.entries[c.id].item == c && cache.entries[c.id].queries == d.queries
            && fresh(cache.entries[c.id].reply) && cache.entries[c.id].reply.body == d.text
            && !cache.entries[c.id].reply.deleted
            && cache.order == (if c.id in old(cache.entries) then old(cache.order) else old(cache.order) + [c.id])
          else cache.entries == old(cache.entries) && cache.order == old(cache.order))
  {
    if c.createdUtc <= start || c.author.None? || LowerStr(c.author.value) in botAccounts {
      return Ok(false);
    }
    if kind == Regular && Response.Truthy(c.bannedBy) {
      return Ok(false);
    }
    if kind == Mention && commentSubreddits != [] && LowerStr(c.subreddit) in commentSubreddits {
      return Ok(false);
    }
    var queries := Parse.Parse(c.body, CommentBody, sanitize, today);
    assert CommentDecision(c, kind, start, botAccounts, commentSubreddits, sanitize, today, client, host, posted, previousQueries)
        == AnswerFor(queries, previousQueries, client, false, None, host, posted);
    r := AnswerQueries(cache, c.id, c, queries, previousQueries, client, false, None, host, posted, previousReply);
  }

  /**
   * The tail both handlers share: nothing for no queries or unchanged queries, the error of
   * a failed search, nothing for no results, else the formatted reply is posted or edited.
   */
  method AnswerQueries<T>(cache: Cache<T>, id: string, item: T, queries: seq<SearchQuery>,
                          previousQueries: Option<seq<SearchQuery>>, client: Client,
                          isSubmission: bool, submissionUrl: Option<string>,
                          host: string -> string, posted: Page -> Option<string>, previousReply: Reply?)
    returns (r: Result<bool, SearchError>)
    requires cache.Valid()
    modifies cache, previousReply
    ensures cache.Valid()
    ensures var d := AnswerFor(queries, previousQueries, client, isSubmission, submissionUrl, host, posted);
      && (d.Ignore? ==> r == Ok(false))
      && (d.SearchFailed? ==> r == Err(d.error))
      && (d.Answer? && previousReply != null ==> r == Ok(old(previousReply.body) != d.text))
      && (d.Answer? && previousReply == null ==> r == Ok(true))
      && (previousReply != null ==>
            && previousReply.body == (if d.Answer? then d.text else old(previousReply.body))
            && previousReply.deleted == old(previousReply.deleted) && previousReply.deletions == old(previousReply.deletions))
      && (if d.Answer? && previousReply == null
          then id in cache.entries
            && cache.entries == old(cache.entries)[id := cache.entries[id]]
            && cache.entries[id].item == item && cache.entries[id].queries == d.queries
            && fresh(cache.entries[id].reply) && cache.entries[id].reply.body == d.text
            && !cache.entries[id].reply.deleted
            && cache.order == (if id in old(cache.entries) then old(cache.order) else old(cache.order) + [id])
          else cache.entries == old(cache.entries) && cache.order == old(cache.order))
  {
    if queries == [] || previousQueries == Some(queries) {
      return Ok(false);
    }
    var results := RunSearch(queries, client);
    if results.Err? {
      return Err(results.error);
    }
    if results.value == [] {
      return Ok(false);
    }
    var text := Response.GenerateResponse(results.value, isSubmission, submissionUrl, host, posted);
    r := Respond(cache, id, item, queries, text, previousReply);
  }

  /**
   * Posting or editing the answer: with no previous reply a new one is posted and cached
   * under `id`; with one, it is edited when its text differs, and the cache is left alone.
   */
  method Respond<T>(cache: Cache<T>, id: string, item: T, queries: seq<SearchQuery>, text: string, previousReply: Reply?)
    returns (r: Result<bool, SearchError>)
    requires cache.Valid()
    modifies cache, previousReply
    ensures cache.Valid()
    ensures r == Ok(previousReply == null || old(previousReply.body) != text)
    ensures previousReply != null ==>
      previousReply.body == text && previousReply.deleted == old(previousReply.deleted)
      && previousReply.deletions == old(previousReply.deletions)
    ensures if previousReply == null
      then id in cache.entries
        && cache.entries == old(cache.entries)[id := cache.entries[id]]
        && cache.entries[id].item == item && cache.entries[id].queries == queries
        && fresh(cache.entries[id].reply) && cache.entries[id].reply.body == text
        && !cache.entries[id].reply.deleted
        && cache.order == (if id in old(cache.entries) then old(cache.order) else old(cache.order) + [id])
      else cache.entries == old(cache.entries) && cache.order == old(cache.order)
  {
    if previousReply == null {
      var reply := new Reply(text);
      cache.Put(id, Entry(item, queries, reply));
      return Ok(true);
    } else if previousReply.body != text {
      previousReply.Edit(text);
      return Ok(true);
    }
    return Ok(false);
  }
}
