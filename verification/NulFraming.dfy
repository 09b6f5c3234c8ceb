/** The UNIX-socket protocol: commands as text, each ended by a NUL byte.

    The server's read loop is given the stream in arbitrary pieces.  Its effect depends on the bytes only, and
    on a client's bytes it is to handle exactly the commands written, in order.
 */
module NulFraming {
  import opened Basics

  const NUL: byte := 0

  /** What `send` writes for each command in turn: the text and a NUL byte */
  function Encode(cmds: seq<seq<byte>>): seq<byte> {
    if cmds == [] then [] else Encode(cmds[..|cmds| - 1]) + cmds[|cmds| - 1] + [NUL]
  }

  /** Commands ended so far, and the bytes after the last NUL */
  datatype Parts = Parts(ended: seq<seq<byte>>, tail: seq<byte>)

  /** The effect of one byte of the stream */
  function Take(p: Parts, b: byte): Parts {
    if b == NUL then Parts(p.ended + [p.tail], []) else Parts(p.ended, p.tail + [b])
  }

  function Split(bs: seq<byte>): Parts {
    if bs == [] then Parts([], []) else Take(Split(bs[..|bs| - 1]), bs[|bs| - 1])
  }

  lemma SplitAppend(bs: seq<byte>, b: byte)
    ensures Split(bs + [b]) == Take(Split(bs), b)
  {
    assert (bs + [b])[..|bs|] == bs;
  }

  lemma EncodeAppend(cmds: seq<seq<byte>>, c: seq<byte>)
    ensures Encode(cmds + [c]) == Encode(cmds) + c + [NUL]
  {
    assert (cmds + [c])[..|cmds|] == cmds;
  }

  predicate NulFree(cmds: seq<seq<byte>>) {
    forall i :: 0 <= i < |cmds| ==> NUL !in cmds[i]
  }

  /** Splitting loses nothing, and no piece holds a NUL byte. */
  lemma {:induction false} SplitIsFaithful(bs: seq<byte>)
    ensures Encode(Split(bs).ended) + Split(bs).tail == bs
    ensures NUL !in Split(bs).tail && NulFree(Split(bs).ended)
  {
    hide Encode, Split;
    if bs == [] {
      NothingEncoded();
    } else {
      var front, b := bs[..|bs| - 1], bs[|bs| - 1];
      SplitIsFaithful(front);
      var p := Split(front);
      assert bs == front + [b];
      SplitAppend(front, b);
      EncodeAppend(p.ended, p.tail);
      assert Encode(p.ended) + (p.tail + [b]) == (Encode(p.ended) + p.tail) + [b];
    }
  }

  lemma NothingEncoded()
    ensures Encode([]) == [] && Split([]) == Parts([], [])
  {
  }

  lemma {:induction false} SplitText(bs: seq<byte>, text: seq<byte>)
    requires NUL !in text
    ensures Split(bs + text) == Parts(Split(bs).ended, Split(bs).tail + text)
  {
    hide Split;
    if text == [] {
      assert bs + text == bs;
    } else {
      var front, b := text[..|text| - 1], text[|text| - 1];
      assert forall x :: x in front ==> x in text;
      SplitText(bs, front);
      assert bs + text == (bs + front) + [b];
      SplitAppend(bs + front, b);
    }
  }

  /** What a client wrote is what the server finds, whatever unterminated text follows. */
  lemma {:induction false} SplitInvertsEncode(cmds: seq<seq<byte>>, tail: seq<byte>)
    requires NulFree(cmds) && NUL !in tail
    ensures Split(Encode(cmds) + tail) == Parts(cmds, tail)
  {
    if cmds == [] {
      SplitText([], tail);
      assert Encode(cmds) + tail == [] + tail;
    } else {
      var front, last := cmds[..|cmds| - 1], cmds[|cmds| - 1];
      hide Split, Encode;
      SplitInvertsEncode(front, last);
      SplitAppend(Encode(front) + last, NUL);
      assert cmds == front + [last];
      EncodeAppend(front, last);
      SplitText(Encode(cmds), tail);
    }
  }

  // ----- the read loop -----

  /** Commands handled in turn from a state, stopping at the first that fails to parse or to apply */
  function HandleAll<S>(handle: (S, seq<byte>) -> Option<S>, s: S, cmds: seq<seq<byte>>): (S, bool) {
    if cmds == [] then (s, true) else
      var (s1, ok) := HandleAll(handle, s, cmds[..|cmds| - 1]);
      if !ok then (s1, false)
      else match handle(s1, cmds[|cmds| - 1]) case Some(s2) => (s2, true) case None => (s1, false)
  }

  lemma HandleAppend<S>(handle: (S, seq<byte>) -> Option<S>, s0: S, cmds: seq<seq<byte>>, c: seq<byte>)
    requires HandleAll(handle, s0, cmds).1
    ensures var s := HandleAll(handle, s0, cmds).0;
            HandleAll(handle, s0, cmds + [c]) == if handle(s, c).Some? then (handle(s, c).value, true) else (s, false)
  {
    assert (cmds + [c])[..|cmds|] == cmds;
  }

  function Concat(chunks: seq<seq<byte>>): seq<byte> {
    if chunks == [] then [] else Concat(chunks[..|chunks| - 1]) + chunks[|chunks| - 1]
  }

  lemma {:induction false} HandleStuck<S>(
    handle: (S, seq<byte>) -> Option<S>, s: S, cmds: seq<seq<byte>>, more: seq<seq<byte>>)
    requires !HandleAll(handle, s, cmds).1
    ensures HandleAll(handle, s, cmds + more) == HandleAll(handle, s, cmds)
  {
    if more == [] {
      assert cmds + more == cmds;
    } else {
      HandleStuck(handle, s, cmds, more[..|more| - 1]);
      assert (cmds + more)[..|cmds + more| - 1] == cmds + more[..|more| - 1];
    }
  }

  /** More bytes only add commands at the end. */
  lemma {:induction false} SplitGrows(bs: seq<byte>, more: seq<byte>)
    ensures Split(bs).ended <= Split(bs + more).ended
  {
    if more == [] {
      assert bs + more == bs;
    } else {
      var front := more[..|more| - 1];
      SplitGrows(bs, front);
      assert bs + more == (bs + front) + [more[|more| - 1]];
      SplitAppend(bs + front, more[|more| - 1]);
    }
  }

  /** The loop over the bytes of one read */
  method HandleRead<S>(
    handle: (S, seq<byte>) -> Option<S>, ghost s0: S, ghost before: seq<byte>, s: S, received: seq<byte>,
    buff: seq<byte>)
    returns (s': S, received': seq<byte>, ok: bool)
    requires received == Split(before).tail && HandleAll(handle, s0, Split(before).ended) == (s, true)
    ensures ok ==>
              received' == Split(before + buff).tail && HandleAll(handle, s0, Split(before + buff).ended) == (s', true)
    ensures !ok ==> HandleAll(handle, s0, Split(before + buff).ended) == (s', false)
  {
    hide Split, HandleAll;
    s', received' := s, received;
    var i := 0;
    assert before + buff[..0] == before;
    while i < |buff|
      invariant 0 <= i <= |buff|
      invariant received' == Split(before + buff[..i]).tail
      invariant HandleAll(handle, s0, Split(before + buff[..i]).ended) == (s', true)
    {
      assert before + buff[..i + 1] == (before + buff[..i]) + [buff[i]];
      SplitAppend(before + buff[..i], buff[i]);
      ghost var p := Split(before + buff[..i]);
      if buff[i] == NUL {
        HandleAppend(handle, s0, p.ended, p.tail);
        match handle(s', received') {
          case None =>
            FailedRead(handle, s0, before, buff, i + 1);
            return s', received', false;
          case Some(next) =>
            s', received' := next, [];
        }
      } else {
        received' := received' + [buff[i]];
      }
      i := i + 1;
    }
    assert buff[..i] == buff;
    ok := true;
  }

  lemma FailedRead<S>(handle: (S, seq<byte>) -> Option<S>, s0: S, before: seq<byte>, buff: seq<byte>, i: nat)
    requires i <= |buff| && !HandleAll(handle, s0, Split(before + buff[..i]).ended).1
    ensures HandleAll(handle, s0, Split(before + buff).ended) == HandleAll(handle, s0, Split(before + buff[..i]).ended)
  {
    assert before + buff == (before + buff[..i]) + buff[i..];
    SplitGrows(before + buff[..i], buff[i..]);
    var p, q := Split(before + buff[..i]).ended, Split(before + buff).ended;
    assert q == p + q[|p|..];
    HandleStuck(handle, s0, p, q[|p|..]);
  }

  /** The reads that return data: the loop ends at the first that returns nothing */
  function Live(chunks: seq<seq<byte>>): seq<seq<byte>> {
    if chunks == [] || chunks[0] == [] then [] else [chunks[0]] + Live(chunks[1..])
  }

  /** `handle_client`: however the stream is cut into reads, the effect is that of its complete commands in order;
      an unterminated tail is left unhandled. */
  method HandleClient<S>(handle: (S, seq<byte>) -> Option<S>, s0: S, chunks: seq<seq<byte>>) returns (s: S, ok: bool)
    ensures (s, ok) == HandleAll(handle, s0, Split(Concat(Live(chunks))).ended)
  {
    hide Split, HandleAll, Live, Concat;
    NothingRead(handle, s0);
    s := s0;
    var received: seq<byte> := [];
    var i := 0;
    ghost var live := Live(chunks);
    LiveStart(chunks);
    while i < |chunks| && |chunks[i]| != 0
      invariant 0 <= i <= |chunks| && i <= |live| && live[..i] == chunks[..i]
      invariant live[i..] == Live(chunks[i..])
      invariant received == Split(Concat(live[..i])).tail
      invariant HandleAll(handle, s0, Split(Concat(live[..i])).ended) == (s, true)
    {
      LiveNext(chunks, live, i);
      s, received, ok := HandleRead(handle, s0, Concat(live[..i]), s, received, chunks[i]);
      if !ok {
        FailedClient(handle, s0, live, i + 1);
        return;
      }
      i := i + 1;
    }
    LiveEnd(chunks, live, i);
    ok := true;
  }

  lemma LiveStart(chunks: seq<seq<byte>>)
    ensures chunks[0..] == chunks && Live(chunks)[0..] == Live(chunks)
    ensures Live(chunks)[..0] == [] && Concat(Live(chunks)[..0]) == []
  {
  }

  lemma LiveNext(chunks: seq<seq<byte>>, live: seq<seq<byte>>, i: nat)
    requires i < |chunks| && chunks[i] != [] && i <= |live| && live[..i] == chunks[..i]
             && live[i..] == Live(chunks[i..])
    ensures i < |live| && live[..i + 1] == chunks[..i + 1] && live[i + 1..] == Live(chunks[i + 1..])
    ensures Concat(live[..i + 1]) == Concat(live[..i]) + chunks[i]
  {
    assert chunks[i..][1..] == chunks[i + 1..];
    assert live[i] == live[i..][0] == chunks[i];
    assert live[i + 1..] == live[i..][1..];
    assert live[..i + 1][..i] == live[..i];
  }

  lemma LiveEnd(chunks: seq<seq<byte>>, live: seq<seq<byte>>, i: nat)
    requires i <= |chunks| && (i < |chunks| ==> chunks[i] == []) && i <= |live| && live[i..] == Live(chunks[i..])
    ensures live[..i] == live
  {
    assert live == live[..i] + live[i..];
  }

  lemma NothingRead<S>(handle: (S, seq<byte>) -> Option<S>, s0: S)
    ensures Split([]) == Parts([], []) && HandleAll(handle, s0, []) == (s0, true)
  {
  }

  lemma {:induction false} FailedClient<S>(handle: (S, seq<byte>) -> Option<S>, s0: S, chunks: seq<seq<byte>>, i: nat)
    requires i <= |chunks| && !HandleAll(handle, s0, Split(Concat(chunks[..i])).ended).1
    ensures HandleAll(handle, s0, Split(Concat(chunks)).ended) ==
            HandleAll(handle, s0, Split(Concat(chunks[..i])).ended)
    decreases |chunks| - i
  {
    if i == |chunks| {
      assert chunks[..i] == chunks;
    } else {
      var before := Concat(chunks[..i]);
      assert chunks[..i + 1][..i] == chunks[..i];
      assert before + chunks[i][..0] == before;
      FailedRead(handle, s0, before, chunks[i], 0);
      FailedClient(handle, s0, chunks, i + 1);
    }
  }

  /** End to end: the server handles exactly what the client sent, for every cut of the stream. */
  lemma SentIsHandled<S>(
    handle: (S, seq<byte>) -> Option<S>, s0: S, cmds: seq<seq<byte>>, tail: seq<byte>, chunks: seq<seq<byte>>)
    requires NulFree(cmds) && NUL !in tail
    requires Concat(Live(chunks)) == Encode(cmds) + tail
    ensures HandleAll(handle, s0, Split(Concat(Live(chunks))).ended) == HandleAll(handle, s0, cmds)
  {
    SplitInvertsEncode(cmds, tail);
  }
}
