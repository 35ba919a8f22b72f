/** cogs/SquadQueue.py: how queued chat messages are combined before sending (`send_queued_messages`)
    and how the queue listing is cut into Discord-sized messages (`list_task`). */
module Messages {
  import opened Common

  /** A combined message is flushed once it exceeds this many characters. */
  const CombineFlushLength: nat := 1500

  /** Discord's message length limit, which the listing respects. */
  const MessageLimit: nat := 2000

  /** Every queued message followed by a newline, in queue order: what the combined messages carry. */
  function JoinLines(q: seq<string>): string
  {
    if q == [] then "" else q[0] + "\n" + JoinLines(q[1..])
  }

  function Reverse<T>(s: seq<T>): (r: seq<T>)
    ensures |r| == |s|
    ensures forall i :: 0 <= i < |s| ==> r[i] == s[|s| - 1 - i]
  {
    if s == [] then [] else Reverse(s[1..]) + [s[0]]
  }

  lemma {:induction false} ReverseSnoc<T>(s: seq<T>, x: T)
    ensures Reverse(s + [x]) == [x] + Reverse(s)
    decreases |s|
  {
    if s != [] {
      assert (s + [x])[1..] == s[1..] + [x];
      ReverseSnoc(s[1..], x);
    }
  }

  /** The backward loop of `send_queued_messages` after it has popped the queue down to index `n`:
      the message being built and the list of flushed messages `sentmsgs`. */
  function CombineFrom(q: seq<string>, n: nat): (string, seq<string>)
    requires n <= |q|
    decreases |q| - n
  {
    if n == |q| then ("", [])
    else
      var (msg, flushed) := CombineFrom(q, n + 1);
      var msg' := q[n] + "\n" + msg;
      if |msg'| > CombineFlushLength then ("", flushed + [msg']) else (msg', flushed)
  }

  /** The messages sent for one channel's queue, in the order they are sent: `sentmsgs` plus the
      unflushed rest, sent from last to first. */
  function Combined(q: seq<string>): seq<string>
  {
    var (msg, flushed) := CombineFrom(q, 0);
    Reverse(if |msg| > 0 then flushed + [msg] else flushed)
  }

  /** After the loop has consumed `q[n..]`, the message being built followed by the flushed messages
      in send order spells out those queued messages. */
  lemma {:induction false} CombineFromJoin(q: seq<string>, n: nat)
    requires n <= |q|
    ensures CombineFrom(q, n).0 + Flatten(Reverse(CombineFrom(q, n).1)) == JoinLines(q[n..])
    decreases |q| - n
  {
    if n < |q| {
      CombineFromJoin(q, n + 1);
      var (msg, flushed) := CombineFrom(q, n + 1);
      var msg' := q[n] + "\n" + msg;
      var rest := Flatten(Reverse(flushed));
      assert q[n..][1..] == q[n + 1..];
      assert JoinLines(q[n..]) == q[n] + "\n" + JoinLines(q[n + 1..]);
      assert msg' + rest == JoinLines(q[n..]);
      if |msg'| > CombineFlushLength {
        ReverseSnoc(flushed, msg');
        FlattenCons(msg', Reverse(flushed));
      }
    } else {
      assert Flatten<char>([]) == [];
    }
  }

  /** The message being built never exceeds the flush length, and every flushed message does. */
  lemma {:induction false} CombineFromLengths(q: seq<string>, n: nat)
    requires n <= |q|
    ensures |CombineFrom(q, n).0| <= CombineFlushLength
    ensures forall k :: 0 <= k < |CombineFrom(q, n).1| ==> |CombineFrom(q, n).1[k]| > CombineFlushLength
    decreases |q| - n
  {
    if n < |q| {
      CombineFromLengths(q, n + 1);
    }
  }

  /** Combining loses nothing and reorders nothing: the sent messages, concatenated, are the queued
      messages each followed by a newline; nothing is sent for an empty queue and something otherwise. */
  lemma CombinedJoin(q: seq<string>)
    ensures Flatten(Combined(q)) == JoinLines(q)
    ensures Combined(q) == [] <==> q == []
  {
    CombineFromJoin(q, 0);
    var (msg, flushed) := CombineFrom(q, 0);
    assert q[0..] == q;
    if |msg| > 0 {
      ReverseSnoc(flushed, msg);
      FlattenCons(msg, Reverse(flushed));
    }
    if q != [] {
      assert |JoinLines(q)| > 0;
    }
  }

  /** Each sent message is non-empty, and all but the first one sent exceed the flush length. */
  lemma CombinedLengths(q: seq<string>)
    ensures forall k :: 0 <= k < |Combined(q)| ==> |Combined(q)[k]| > 0
    ensures forall k :: 0 < k < |Combined(q)| ==> |Combined(q)[k]| > CombineFlushLength
  {
    CombineFromLengths(q, 0);
    var (msg, flushed) := CombineFrom(q, 0);
    if |msg| > 0 {
      assert Combined(q) == [msg] + Reverse(flushed);
    } else {
      assert Combined(q) == Reverse(flushed);
    }
  }

  /** `send_queued_messages` for one channel: the queue is popped from the back, and the result is
      the list of messages in the order they are sent. */
  method CombineQueue(queue: seq<string>) returns (sent: seq<string>)
    ensures sent == Combined(queue)
  {
    var sentmsgs: seq<string> := [];
    var msg := "";
    var i := |queue|;
    while i > 0
      invariant 0 <= i <= |queue|
      invariant (msg, sentmsgs) == CombineFrom(queue, i)
    {
      i := i - 1;
      msg := queue[i] + "\n" + msg;
      if |msg| > CombineFlushLength {
        sentmsgs := sentmsgs + [msg];
        msg := "";
      }
    }
    if |msg| > 0 {
      sentmsgs := sentmsgs + [msg];
    }
    sent := [];
    var j := |sentmsgs|;
    while j > 0
      invariant 0 <= j <= |sentmsgs|
      invariant sent == Reverse(sentmsgs[j..])
    {
      j := j - 1;
      assert sentmsgs[j..] == [sentmsgs[j]] + sentmsgs[j + 1..];
      sent := sent + [sentmsgs[j]];
    }
    assert sentmsgs[0..] == sentmsgs;
  }

  /** The listing's chunking loop after the first `n` lines: the finished messages and the message
      being filled. */
  function ChunkFrom(lines: seq<string>, n: nat): (seq<string>, string)
    requires n <= |lines|
  {
    if n == 0 then ([], "")
    else
      var (chunks, bulk) := ChunkFrom(lines, n - 1);
      var line := lines[n - 1];
      if |bulk + line + "\n"| > MessageLimit then (chunks + [bulk], line + "\n")
      else (chunks, bulk + line + "\n")
  }

  /** The messages the listing is cut into: the finished ones, plus the last one unless it is empty
      or a lone newline. */
  function ChunkLines(lines: seq<string>): seq<string>
  {
    var (chunks, bulk) := ChunkFrom(lines, |lines|);
    if |bulk| > 0 && bulk != "\n" then chunks + [bulk] else chunks
  }

  /** Lines joined with newlines after each, in order. */
  function Terminated(lines: seq<string>): string
  {
    if lines == [] then "" else Terminated(lines[..|lines| - 1]) + lines[|lines| - 1] + "\n"
  }

  /** The chunking loop loses nothing: the finished messages followed by the one being filled are
      the first `n` lines, each with its newline. */
  lemma {:induction false} ChunkFromJoin(lines: seq<string>, n: nat)
    requires n <= |lines|
    ensures Flatten(ChunkFrom(lines, n).0) + ChunkFrom(lines, n).1 == Terminated(lines[..n])
  {
    if n > 0 {
      ChunkFromJoin(lines, n - 1);
      var (chunks, bulk) := ChunkFrom(lines, n - 1);
      var line := lines[n - 1];
      assert lines[..n][..n - 1] == lines[..n - 1];
      assert Terminated(lines[..n]) == Terminated(lines[..n - 1]) + line + "\n";
      if |bulk + line + "\n"| > MessageLimit {
        assert (chunks + [bulk])[..|chunks|] == chunks;
        assert Flatten(chunks + [bulk]) == Flatten(chunks) + bulk;
      }
    }
  }

  /** Once a line has been read, the message being filled is never empty; it is over the limit
      only when it is a single line that does not fit on its own. */
  lemma {:induction false} ChunkFromBulk(lines: seq<string>, n: nat)
    requires n <= |lines|
    ensures n > 0 ==> |ChunkFrom(lines, n).1| > 0
    ensures |ChunkFrom(lines, n).1| > MessageLimit ==>
              exists j :: 0 <= j < n && ChunkFrom(lines, n).1 == lines[j] + "\n"
  {
    if n > 0 {
      ChunkFromBulk(lines, n - 1);
      var (chunks, bulk) := ChunkFrom(lines, n - 1);
      var line := lines[n - 1];
      if |bulk + line + "\n"| <= MessageLimit {
      } else {
        assert ChunkFrom(lines, n).1 == lines[n - 1] + "\n";
      }
    }
  }

  /** A finished message is over the limit only when it is a single oversized line, and only the
      first finished message can be empty. */
  lemma {:induction false} ChunkFromChunks(lines: seq<string>, n: nat)
    requires n <= |lines|
    ensures forall k :: 0 <= k < |ChunkFrom(lines, n).0| && |ChunkFrom(lines, n).0[k]| > MessageLimit ==>
              exists j :: 0 <= j < n && ChunkFrom(lines, n).0[k] == lines[j] + "\n"
    ensures forall k :: 0 < k < |ChunkFrom(lines, n).0| ==> |ChunkFrom(lines, n).0[k]| > 0
  {
    if n > 0 {
      ChunkFromChunks(lines, n - 1);
      ChunkFromBulk(lines, n - 1);
      var (chunks, bulk) := ChunkFrom(lines, n - 1);
      var line := lines[n - 1];
      if |bulk + line + "\n"| > MessageLimit {
        var r := chunks + [bulk];
        assert ChunkFrom(lines, n).0 == r;
        forall k | 0 <= k < |r| && |r[k]| > MessageLimit
          ensures exists j :: 0 <= j < n && r[k] == lines[j] + "\n"
        {
          if k < |chunks| {
            var j :| 0 <= j < n - 1 && chunks[k] == lines[j] + "\n";
          }
        }
        forall k | 0 < k < |r| ensures |r[k]| > 0 {
          if k == |chunks| {
            assert n - 1 > 0;
          }
        }
      }
    }
  }

  /** `list_task`'s chunking loop: each line with its newline goes into the message being filled,
      which is closed first when the line would take it over the limit. */
  method ChunkListing(lines: seq<string>) returns (messages: seq<string>)
    ensures messages == ChunkLines(lines)
  {
    messages := [];
    var bulk := "";
    for i := 0 to |lines|
      invariant (messages, bulk) == ChunkFrom(lines, i)
    {
      if |bulk + lines[i] + "\n"| > MessageLimit {
        messages := messages + [bulk];
        bulk := lines[i] + "\n";
      } else {
        bulk := bulk + lines[i] + "\n";
      }
    }
    if |bulk| > 0 && bulk != "\n" {
      messages := messages + [bulk];
    }
  }

  /** The listing messages carry every line in order, dropping at most a final lone newline; a
      message is over the limit only when it is one oversized line; and a message is empty only
      when it is the first one and the first line alone exceeds the limit. */
  lemma ChunkLinesSpec(lines: seq<string>)
    ensures var r := ChunkLines(lines);
            (Flatten(r) == Terminated(lines) || Flatten(r) + "\n" == Terminated(lines)) &&
            (forall k :: 0 <= k < |r| && |r[k]| > MessageLimit ==>
               exists j :: 0 <= j < |lines| && r[k] == lines[j] + "\n") &&
            (forall k :: 0 <= k < |r| && r[k] == "" ==> k == 0 && |lines[0]| + 1 > MessageLimit)
  {
    ChunkFromJoin(lines, |lines|);
    ChunkFromBulk(lines, |lines|);
    ChunkFromChunks(lines, |lines|);
    assert lines[..|lines|] == lines;
    var (chunks, bulk) := ChunkFrom(lines, |lines|);
    if |bulk| > 0 && bulk != "\n" {
      FlattenAppend(chunks, [bulk]);
      assert Flatten([bulk]) == bulk by {
        assert [bulk][..0] == [];
      }
    }
    ChunkFromFirstEmpty(lines, |lines|);
  }

  /** The first finished message is empty exactly when the first line alone overflows. */
  lemma {:induction false} ChunkFromFirstEmpty(lines: seq<string>, n: nat)
    requires n <= |lines|
    ensures var (chunks, _) := ChunkFrom(lines, n);
            |chunks| > 0 && chunks[0] == "" ==> |lines[0]| + 1 > MessageLimit
  {
    if n > 1 {
      ChunkFromFirstEmpty(lines, n - 1);
      ChunkFromBulk(lines, n - 1);
    }
  }

  /** `str.split("\n")`: the pieces between newlines (one piece when there is none). */
  function SplitLines(s: string): (r: seq<string>)
    ensures |r| > 0
    ensures forall k :: 0 <= k < |r| ==> '\n' !in r[k]
  {
    if '\n' !in s then [s]
    else
      var i := FirstNewline(s);
      [s[..i]] + SplitLines(s[i + 1..])
  }

  function FirstNewline(s: string): (i: nat)
    requires '\n' in s
    ensures i < |s| && s[i] == '\n' && '\n' !in s[..i]
  {
    if s[0] == '\n' then 0
    else
      var j := FirstNewline(s[1..]);
      assert s[..j + 1] == [s[0]] + s[1..][..j];
      j + 1
  }

  /** Lines joined with newlines between them, as `"\n".join`. */
  function JoinNewlines(lines: seq<string>): string
    requires |lines| > 0
  {
    if |lines| == 1 then lines[0] else lines[0] + "\n" + JoinNewlines(lines[1..])
  }

  /** Splitting at newlines and joining again gives back the text. */
  lemma {:induction false} SplitLinesJoin(s: string)
    ensures JoinNewlines(SplitLines(s)) == s
    decreases |s|
  {
    if '\n' in s {
      var i := FirstNewline(s);
      SplitLinesJoin(s[i + 1..]);
      assert s == s[..i] + "\n" + s[i + 1..];
    }
  }
}
