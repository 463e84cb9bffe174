/**
 The error log (`error.c`, `error.h`): messages appended to an arena as NUL-terminated strings,
 and a backtrace that pulls them out again.
 */
module ErrorLog {
  import opened Bytes
  import opened Cursors

  const ERROR_MEM: nat := 4096

  /** Messages end to end, a NUL after each. */
  function Joined(msgs: seq<seq<byte>>): seq<byte> {
    if msgs == [] then [] else Joined(msgs[..|msgs| - 1]) + msgs[|msgs| - 1] + [0]
  }

  predicate NulFree(msgs: seq<seq<byte>>) {
    forall i :: 0 <= i < |msgs| ==> 0 !in msgs[i]
  }

  datatype Event = Note(msg: seq<byte>) | Reset

  /** The messages kept in an arena of `capacity` bytes after one more event. */
  function Kept(capacity: nat, msgs: seq<seq<byte>>, e: Event): seq<seq<byte>> {
    match e
    case Note(msg) => if |Joined(msgs + [msg])| <= capacity then msgs + [msg] else msgs
    case Reset => []
  }

  /** The messages kept after a whole run that began with an empty log. */
  function After(capacity: nat, events: seq<Event>): seq<seq<byte>> {
    if events == [] then []
    else Kept(capacity, After(capacity, events[..|events| - 1]), events[|events| - 1])
  }

  lemma JoinedSnoc(msgs: seq<seq<byte>>, msg: seq<byte>)
    ensures Joined(msgs + [msg]) == Joined(msgs) + msg + [0]
  {
    assert (msgs + [msg])[..|msgs|] == msgs;
  }

  lemma JoinedNothing(msgs: seq<seq<byte>>)
    ensures Joined(msgs) == [] <==> msgs == []
  {
  }

  lemma {:induction false} JoinedAppend(xs: seq<seq<byte>>, ys: seq<seq<byte>>)
    ensures Joined(xs + ys) == Joined(xs) + Joined(ys)
  {
    hide Joined;
    if ys == [] {
      JoinedNothing(ys);
      assert xs + ys == xs;
    } else {
      var n := |ys| - 1;
      JoinedSnoc(ys[..n], ys[n]);
      assert ys == ys[..n] + [ys[n]];
      JoinedAppend(xs, ys[..n]);
      JoinedSnoc(xs + ys[..n], ys[n]);
      assert xs + ys == xs + ys[..n] + [ys[n]];
    }
  }

  /** The first message is what lies before the first NUL. */
  lemma JoinedFront(msgs: seq<seq<byte>>, i: nat)
    requires i < |msgs|
    ensures Joined(msgs) == Joined(msgs[..i]) + msgs[i] + [0] + Joined(msgs[i + 1..])
    ensures Joined(msgs[..i + 1]) == Joined(msgs[..i]) + msgs[i] + [0]
  {
    hide Joined;
    JoinedSnoc(msgs[..i], msgs[i]);
    assert msgs[..i + 1] == msgs[..i] + [msgs[i]];
    JoinedAppend(msgs[..i + 1], msgs[i + 1..]);
    assert msgs == msgs[..i + 1] + msgs[i + 1..];
  }

  /** A string ends at its first NUL, so it can be cut off in one way only. */
  lemma FirstNul(s: seq<byte>, t: seq<byte>, x: seq<byte>, y: seq<byte>)
    requires 0 !in s && 0 !in t && s + [0] + x == t + [0] + y
    ensures s == t && x == y
  {
    var w := s + [0] + x;
    assert w[|s|] == 0 && w[|t|] == 0;
    assert forall k :: 0 <= k < |s| ==> w[k] == s[k] && s[k] in s;
    assert forall k :: 0 <= k < |t| ==> w[k] == t[k] && t[k] in t;
    assert w[..|s|] == s && w[..|t|] == t;
    assert w[|s| + 1..] == x && w[|t| + 1..] == y;
  }

  lemma JoinedHead(msgs: seq<seq<byte>>)
    requires msgs != []
    ensures Joined(msgs) == msgs[0] + [0] + Joined(msgs[1..])
  {
    JoinedFront(msgs, 0);
    assert msgs[..0] == [];
  }

  /** The bytes determine the messages. */
  lemma {:induction false} JoinedInjective(a: seq<seq<byte>>, b: seq<seq<byte>>)
    requires NulFree(a) && NulFree(b) && Joined(a) == Joined(b)
    ensures a == b
  {
    hide Joined;
    JoinedNothing(a);
    JoinedNothing(b);
    if a != [] {
      JoinedHead(a);
      JoinedHead(b);
      FirstNul(a[0], b[0], Joined(a[1..]), Joined(b[1..]));
      JoinedInjective(a[1..], b[1..]);
      assert a == [a[0]] + a[1..] && b == [b[0]] + b[1..];
    }
  }

  predicate NotesNulFree(events: seq<Event>) {
    forall i :: 0 <= i < |events| && events[i].Note? ==> 0 !in events[i].msg
  }

  /** Whatever is noted and however often the log is reset, the arena is never overrun nor a string cut. */
  lemma {:induction false} RunFits(capacity: nat, events: seq<Event>)
    requires NotesNulFree(events)
    ensures |Joined(After(capacity, events))| <= capacity && NulFree(After(capacity, events))
  {
    hide Joined;
    JoinedNothing([]);
    if events != [] {
      RunFits(capacity, events[..|events| - 1]);
    }
  }

  function Notes(msgs: seq<seq<byte>>): (events: seq<Event>)
    ensures |events| == |msgs| && forall i :: 0 <= i < |msgs| ==> events[i] == Note(msgs[i])
  {
    seq(|msgs|, i requires 0 <= i < |msgs| => Note(msgs[i]))
  }

  lemma {:induction false} KeepsNoMore(capacity: nat, msgs: seq<seq<byte>>)
    ensures |After(capacity, Notes(msgs))| <= |msgs|
  {
    hide Joined;
    if msgs != [] {
      KeepsNoMore(capacity, msgs[..|msgs| - 1]);
      assert Notes(msgs)[..|msgs| - 1] == Notes(msgs[..|msgs| - 1]);
    }
  }

  /** Nothing noted since a reset is lost exactly when all of it, NULs included, fits the arena. */
  lemma {:induction false} NothingLost(capacity: nat, msgs: seq<seq<byte>>)
    ensures After(capacity, Notes(msgs)) == msgs <==> |Joined(msgs)| <= capacity
  {
    hide Joined;
    if msgs == [] {
      JoinedNothing([]);
    } else {
      var n := |msgs| - 1;
      var front, last := msgs[..n], msgs[n];
      NothingLost(capacity, front);
      KeepsNoMore(capacity, front);
      JoinedSnoc(front, last);
      assert msgs == front + [last] && Notes(msgs)[..n] == Notes(front);
      var kept := After(capacity, Notes(front));
      assert After(capacity, Notes(msgs)) == Kept(capacity, kept, Note(last));
      assert kept + [last] == msgs ==> kept == msgs[..n];
    }
  }

  /** `struct errors`; `msgs` are the messages its arena holds. */
  class Errors {
    const cur: Cursor
    var enabled: bool
    ghost var msgs: seq<seq<byte>>

    ghost predicate Valid()
      reads this, cur, cur.mem
    {
      cur.Valid() && cur.Contents() == Joined(msgs) && NulFree(msgs)
    }

    ghost function Capacity(): int {
      cur.end - cur.start
    }

    /** As `lnsocket_create` leaves it: an empty arena of 4096 bytes. */
    constructor (mem: array<byte>, start: nat)
      requires start + ERROR_MEM <= mem.Length
      ensures Valid() && fresh(cur) && cur.mem == mem && Capacity() == ERROR_MEM
      ensures enabled && msgs == []
    {
      cur := new Cursor(mem, start, start + ERROR_MEM);
      enabled := true;
      msgs := [];
    }

    /** `note_error_`, given the formatted message. */
    method NoteError(msg: seq<byte>)
      requires Valid() && 0 !in msg
      modifies `msgs, cur`p, cur.mem
      ensures Valid()
      ensures msgs == if enabled then Kept(Capacity(), old(msgs), Note(msg)) else old(msgs)
    {
      hide Joined;
      if !enabled {
        return;
      }
      JoinedSnoc(msgs, msg);
      var ok := cur.PushCStr(msg);
      if ok {
        msgs := msgs + [msg];
      }
    }

    /** `reset_cursor(&errs.cur)`, as each read begins with. */
    method ResetLog()
      requires Valid()
      modifies `msgs, cur`p
      ensures Valid() && msgs == Kept(Capacity(), old(msgs), Reset)
    {
      cur.Reset();
      msgs := [];
    }

    /** A whole run: whatever is noted and however often the log is reset, these bytes are in the arena. */
    method Play(events: seq<Event>)
      requires Valid() && enabled && msgs == [] && NotesNulFree(events)
      modifies `msgs, cur`p, cur.mem
      ensures Valid() && msgs == After(Capacity(), events)
      ensures cur.Contents() == Joined(After(Capacity(), events)) && |cur.Contents()| <= Capacity()
    {
      hide Joined, Kept;
      assert events[..0] == [];
      for i := 0 to |events|
        invariant Valid() && msgs == After(Capacity(), events[..i])
      {
        assert events[..i + 1][..i] == events[..i];
        match events[i]
        case Note(msg) => NoteError(msg);
        case Reset => ResetLog();
      }
      assert events[..|events|] == events;
    }

    /** One turn of the loop below: the next message is there to be pulled. */
    method PullNext(errs: Cursor, ghost i: nat) returns (ok: bool, msg: seq<byte>)
      requires Valid() && errs != cur && errs.Valid() && i <= |msgs|
      requires errs.mem == cur.mem && errs.start == cur.start && errs.end == cur.end
      requires errs.p < cur.p && errs.Contents() == Joined(msgs[..i])
      modifies errs`p
      ensures Valid() && errs.Valid() && ok && errs.p <= cur.p
      ensures i < |msgs| && msg == msgs[i] && errs.Contents() == Joined(msgs[..i + 1])
    {
      hide Joined;
      ghost var at, m := errs.p, cur.mem[..];
      assert m[cur.start..cur.p] == cur.Contents() && m[cur.start..at] == errs.Contents();
      NextLine(msgs, i, m, cur.start, at, cur.p, cur.end);
      assert cur.mem[at..cur.end] == m[at..cur.end];
      ok, msg := errs.PullCStr();
      assert cur.mem[at..errs.p] == m[at..errs.p];
      LineRead(msgs, i, m, cur.start, at, cur.p, msg);
      assert errs.Contents() == m[cur.start..errs.p];
    }

    /** `print_error_backtrace`: the lines are the messages, oldest first, and no pull fails. */
    method Backtrace() returns (lines: seq<seq<byte>>)
      requires Valid()
      ensures lines == msgs
    {
      hide Joined;
      var errs := new Cursor(cur.mem, cur.start, cur.end);
      errs.p := cur.p;
      errs.p := errs.start;
      lines := [];
      JoinedNothing([]);
      while errs.p < cur.p
        invariant fresh(errs) && errs.Valid() && errs.p <= cur.p
        invariant errs.mem == cur.mem && errs.start == cur.start && errs.end == cur.end
        invariant |lines| <= |msgs| && lines == msgs[..|lines|] && errs.Contents() == Joined(lines)
        decreases |msgs| - |lines|
      {
        var ok, msg := PullNext(errs, |lines|);
        if !ok {
          return;
        }
        lines := lines + [msg];
      }
      JoinedInjective(lines, msgs);
    }
  }

  /** Where a reader stands that has read `i` of the messages, the next one and its NUL begin. */
  lemma NextLine(msgs: seq<seq<byte>>, i: nat, m: seq<byte>, start: nat, at: nat, p: nat, end: nat)
    requires i <= |msgs| && start <= at < p <= end <= |m|
    requires m[start..p] == Joined(msgs) && m[start..at] == Joined(msgs[..i])
    ensures i < |msgs| && at + |msgs[i]| + 1 <= p && m[at..at + |msgs[i]| + 1] == msgs[i] + [0]
    ensures 0 in m[at..end]
  {
    hide Joined;
    assert msgs[..|msgs|] == msgs;
    assert i < |msgs|;
    JoinedFront(msgs, i);
    var n := |msgs[i]| + 1;
    assert m[at..p] == m[start..p][at - start..] == msgs[i] + [0] + Joined(msgs[i + 1..]);
    assert m[at..at + n] == m[at..p][..n];
    assert m[at..end][n - 1] == m[at..at + n][n - 1] == 0;
  }

  /** The string up to the next NUL is that message. */
  lemma LineRead(msgs: seq<seq<byte>>, i: nat, m: seq<byte>, start: nat, at: nat, p: nat, msg: seq<byte>)
    requires i < |msgs| && start <= at < p <= |m| && NulFree(msgs) && m[start..at] == Joined(msgs[..i])
    requires at + |msgs[i]| + 1 <= p && m[at..at + |msgs[i]| + 1] == msgs[i] + [0]
    requires at + |msg| + 1 <= |m| && 0 !in msg && m[at..at + |msg| + 1] == msg + [0]
    ensures msg == msgs[i] && m[start..at + |msg| + 1] == Joined(msgs[..i + 1])
  {
    hide Joined;
    var ahead := m[at..];
    assert ahead == msg + [0] + ahead[|msg| + 1..];
    assert ahead == msgs[i] + [0] + ahead[|msgs[i]| + 1..];
    FirstNul(msg, msgs[i], ahead[|msg| + 1..], ahead[|msgs[i]| + 1..]);
    JoinedFront(msgs, i);
    assert m[start..at + |msg| + 1] == m[start..at] + m[at..at + |msg| + 1];
  }
}
