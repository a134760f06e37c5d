/** The segment writer of lib/services/src/log/formatter.c: text of any length goes out in segments
    of a fixed buffer. */
module LogWriter {

  function Concat(segments: seq<string>): string {
    if segments == [] then "" else Concat(segments[..|segments| - 1]) + segments[|segments| - 1]
  }

  lemma ConcatAppend(segments: seq<string>, last: string)
    ensures Concat(segments + [last]) == Concat(segments) + last
  {
    assert (segments + [last])[..|segments|] == segments;
  }

  class LogBufWriter {
    const seg: array<char>
    var segLen: nat
    var sent: seq<string>    // what the out callback was given, call by call
    ghost var flushed: nat   // how many of these calls there were when the writer was last flushed

    ghost predicate Valid()
      reads this
    {
      segLen < seg.Length && flushed <= |sent| &&
      (forall i :: 0 <= i < |sent| ==> 1 <= |sent[i]| <= seg.Length) &&
      (forall i :: flushed <= i < |sent| ==> |sent[i]| == seg.Length)
    }

    /** Everything written so far, sent or not. */
    ghost function Text(): string
      requires Valid()
      reads this, seg
    {
      Concat(sent) + seg[..segLen]
    }

    /** log_buf_writer_init */
    constructor (seg: array<char>)
      requires 0 < seg.Length
      ensures Valid() && this.seg == seg && sent == [] && segLen == 0 && Text() == ""
    {
      this.seg, segLen, sent, flushed := seg, 0, [], 0;
    }

    /** fmt_flush: one callback for what is in the buffer, none when it is empty. */
    method Flush()
      requires Valid()
      modifies this
      ensures Valid() && Text() == old(Text()) == Concat(sent) && segLen == 0 && flushed == |sent|
      ensures sent == old(sent) + if old(segLen) > 0 then [old(seg[..segLen])] else []
    {
      if segLen > 0 {
        ConcatAppend(sent, seg[..segLen]);
        sent := sent + [seg[..segLen]];
        segLen := 0;
      }
      flushed := |sent|;
    }

    /** The flush inside log_buf_write, when the buffer is full. */
    method SendFull()
      requires segLen == seg.Length > 0 && flushed <= |sent|
      requires forall i :: 0 <= i < |sent| ==> 1 <= |sent[i]| <= seg.Length
      requires forall i :: flushed <= i < |sent| ==> |sent[i]| == seg.Length
      modifies this`segLen, this`sent
      ensures Valid() && Text() == old(Concat(sent) + seg[..segLen]) && old(sent) <= sent
    {
      ConcatAppend(sent, seg[..]);
      assert seg[..segLen] == seg[..];
      sent := sent + [seg[..]];
      segLen := 0;
    }

    /** The body of the loop in log_buf_write, for a piece that fits. */
    method Append(piece: string)
      requires Valid() && segLen + |piece| <= seg.Length
      modifies this`segLen, this`sent, seg
      ensures Valid() && Text() == old(Text()) + piece && old(sent) <= sent
    {
      ghost var was, before := seg[..segLen], Concat(sent);
      forall j | 0 <= j < |piece| { seg[segLen + j] := piece[j]; }
      segLen := segLen + |piece|;
      assert seg[..segLen] == was + piece;
      assert before + (was + piece) == before + was + piece;
      if segLen >= seg.Length {
        SendFull();
      }
    }

    /** log_buf_write: the text grows by exactly s, and every segment sent in between is full. */
    method Write(s: string)
      requires Valid()
      modifies this`segLen, this`sent, seg
      ensures Valid() && Text() == old(Text()) + s && old(sent) <= sent && flushed == old(flushed)
    {
      var k := 0;
      while k < |s|
        invariant 0 <= k <= |s| && Valid() && Text() == old(Text()) + s[..k] && old(sent) <= sent
      {
        var room := seg.Length - segLen;
        var m := if |s| - k < room then |s| - k else room;
        Append(s[k..k + m]);
        assert s[..k + m] == s[..k] + s[k..k + m];
        k := k + m;
      }
      assert s[..k] == s;
    }

    /** log_buf_putc */
    method PutC(c: char)
      requires Valid()
      modifies this`segLen, this`sent, seg
      ensures Valid() && Text() == old(Text()) + [c] && old(sent) <= sent && flushed == old(flushed)
    {
      Write([c]);
    }
  }
}
