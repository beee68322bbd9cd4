/** The home timeline: the message query of the home page (owner filter,
    newest first, at most one page) and the liked flag set on each message. */
module Timeline {
  import opened Records

  /** How many messages the home page shows at most. */
  const PageSize: nat := 100

  ghost predicate NewestFirst(s: seq<Message>) {
    forall i, j :: 0 <= i < j < |s| ==> s[i].timestamp >= s[j].timestamp
  }

  ghost predicate DistinctIds(s: seq<Message>) {
    forall i, j :: 0 <= i < j < |s| ==> s[i].id != s[j].id
  }

  /** The rows of the message table with id below `bound`, in primary-key order. */
  function Scan(messages: map<MessageId, Message>, bound: nat): seq<Message>
  {
    if bound == 0 then []
    else Scan(messages, bound - 1) + (if bound - 1 in messages then [messages[bound - 1]] else [])
  }

  /** A scan below a bound above every key lists each row of the table exactly once. */
  lemma {:induction false} ScanIsTable(messages: map<MessageId, Message>, bound: nat)
    requires forall k :: k in messages ==> messages[k].id == k
    ensures forall m :: m in Scan(messages, bound) <==> m.id < bound && m.id in messages && messages[m.id] == m
    ensures DistinctIds(Scan(messages, bound))
  {
    if bound > 0 {
      ScanIsTable(messages, bound - 1);
      var prefix: seq<Message> := Scan(messages, bound - 1);
      var tail: seq<Message> := if bound - 1 in messages then [messages[bound - 1]] else [];
      var all: seq<Message> := prefix + tail;
      assert Scan(messages, bound) == all;
      forall i, j | 0 <= i < j < |all|
        ensures all[i].id != all[j].id
      {
        if j >= |prefix| {
          assert all[i] in prefix;
        }
      }
    }
  }

  /** The rows whose owner is in `owners`, in their original order. */
  function Keep(rows: seq<Message>, owners: set<UserId>): (r: seq<Message>)
    ensures forall m :: m in r <==> m in rows && m.userId in owners
    ensures DistinctIds(rows) ==> DistinctIds(r)
  {
    if rows == [] then []
    else
      var rest := Keep(rows[1..], owners);
      assert DistinctIds(rows) ==> forall m :: m in rows[1..] ==> m.id != rows[0].id;
      if rows[0].userId in owners then [rows[0]] + rest else rest
  }

  /** Places `x` in a newest-first sequence before the first message no newer than it. */
  function Insert(x: Message, s: seq<Message>): (r: seq<Message>)
    ensures |r| == |s| + 1
    ensures forall m :: m in r <==> m == x || m in s
  {
    if s == [] || x.timestamp >= s[0].timestamp then [x] + s
    else [s[0]] + Insert(x, s[1..])
  }

  /** Insertion adds exactly one copy of `x` and keeps every other row. */
  lemma {:induction false} InsertPermutes(x: Message, s: seq<Message>)
    ensures multiset(Insert(x, s)) == multiset(s) + multiset{x}
  {
    if s != [] && x.timestamp < s[0].timestamp {
      InsertPermutes(x, s[1..]);
      assert s == [s[0]] + s[1..];
      assert Insert(x, s) == [s[0]] + Insert(x, s[1..]);
    }
  }

  lemma {:induction false} InsertKeepsOrder(x: Message, s: seq<Message>)
    requires NewestFirst(s)
    ensures NewestFirst(Insert(x, s))
  {
    if s != [] && x.timestamp < s[0].timestamp {
      InsertKeepsOrder(x, s[1..]);
      var rest := Insert(x, s[1..]);
      assert Insert(x, s) == [s[0]] + rest;
      assert forall m :: m in rest ==> s[0].timestamp >= m.timestamp;
    }
  }

  lemma {:induction false} InsertKeepsDistinct(x: Message, s: seq<Message>)
    ensures DistinctIds(s) && (forall m :: m in s ==> m.id != x.id) ==> DistinctIds(Insert(x, s))
  {
    if DistinctIds(s) && (forall m :: m in s ==> m.id != x.id) && s != [] && x.timestamp < s[0].timestamp {
      InsertKeepsDistinct(x, s[1..]);
      var rest := Insert(x, s[1..]);
      assert Insert(x, s) == [s[0]] + rest;
      assert forall m :: m in rest ==> m.id != s[0].id;
    }
  }

  /** Orders rows by descending timestamp: a newest-first permutation of the rows. */
  function SortNewestFirst(s: seq<Message>): (r: seq<Message>)
    ensures |r| == |s|
    ensures forall m :: m in r <==> m in s
    ensures NewestFirst(r)
    ensures DistinctIds(s) ==> DistinctIds(r)
  {
    if s == [] then []
    else
      var rest := SortNewestFirst(s[1..]);
      InsertKeepsOrder(s[0], rest);
      InsertKeepsDistinct(s[0], rest);
      assert DistinctIds(s) ==> forall m :: m in s[1..] ==> m.id != s[0].id;
      Insert(s[0], rest)
  }

  /** Sorting is a permutation: every row keeps its number of occurrences. */
  lemma {:induction false} SortPermutes(s: seq<Message>)
    ensures multiset(SortNewestFirst(s)) == multiset(s)
  {
    if s != [] {
      SortPermutes(s[1..]);
      InsertPermutes(s[0], SortNewestFirst(s[1..]));
      assert s == [s[0]] + s[1..];
    }
  }

  /** The query behind the home page: rows owned by `owners`, newest first, at most a page. */
  function Select(rows: seq<Message>, owners: set<UserId>): seq<Message>
  {
    var sorted := SortNewestFirst(Keep(rows, owners));
    sorted[..if |sorted| < PageSize then |sorted| else PageSize]
  }

  /** The query returns at most a page of distinct qualifying rows, newest first, and
      leaves out a qualifying row only when the page is full of rows no older than it. */
  lemma SelectIsNewestPage(rows: seq<Message>, owners: set<UserId>)
    requires DistinctIds(rows)
    ensures |Select(rows, owners)| <= PageSize
    ensures forall m :: m in Select(rows, owners) ==> m in rows && m.userId in owners
    ensures NewestFirst(Select(rows, owners))
    ensures DistinctIds(Select(rows, owners))
    ensures forall m :: m in rows && m.userId in owners && m !in Select(rows, owners) ==>
              |Select(rows, owners)| == PageSize &&
              forall i :: 0 <= i < PageSize ==> m.timestamp <= Select(rows, owners)[i].timestamp
  {
  }

  /** Sets the liked flag of each selected message: liked exactly when its id is among `liked`. */
  method MarkLiked(feed: seq<Message>, liked: set<MessageId>) returns (items: seq<FeedItem>)
    ensures |items| == |feed|
    ensures forall i :: 0 <= i < |feed| ==> items[i].message == feed[i]
    ensures forall i :: 0 <= i < |feed| ==> (items[i].isLiked <==> feed[i].id in liked)
  {
    items := [];
    for i := 0 to |feed|
      invariant |items| == i
      invariant forall k :: 0 <= k < i ==> items[k].message == feed[k]
      invariant forall k :: 0 <= k < i ==> (items[k].isLiked <==> feed[k].id in liked)
    {
      if feed[i].id in liked {
        items := items + [FeedItem(feed[i], true)];
      } else {
        items := items + [FeedItem(feed[i], false)];
      }
    }
  }
}
