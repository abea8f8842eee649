/** `Xrecv` and the bytes it stashes when the caller's buffer is smaller than a payload. */
module RecvBuffer {
  import opened Basics

  /** A stream socket: the stash, and the record of what came in and what was handed out. */
  class SocketState {
    var buf: seq<Byte>
    ghost var received: seq<Byte>
    ghost var returned: seq<Byte>

    /** Nothing is lost, doubled or reordered. */
    ghost predicate Valid()
      reads this
    {
      received == returned + buf
    }

    constructor ()
      ensures Valid() && received == [] && returned == []
    {
      buf, received, returned := [], [], [];
    }

    /** `SocketState::data`: hand out stashed bytes. */
    method Data(len: nat) returns (out: seq<Byte>)
      modifies this`buf
      ensures out + buf == old(buf) && |out| == if |old(buf)| > len then len else |old(buf)|
    {
      if |buf| == 0 {
        return [];
      } else if |buf| > len {
        out := buf[..len];
        buf := buf[len..];
      } else {
        out := buf;
        buf := [];
      }
    }

    /** `SocketState::setData` replaces the stash. */
    method SetData(data: seq<Byte>)
      modifies this`buf
      ensures buf == if data == [] then old(buf) else data
    {
      if |data| == 0 {
        return;
      }
      buf := data;
    }

    /** `Xrecv`; `payload` is what the transport delivers if it is asked. */
    method Xrecv(len: nat, payload: seq<Byte>) returns (out: seq<Byte>, asked: bool)
      requires Valid()
      modifies this
      ensures Valid() && |out| <= len
      ensures asked <==> len > 0 && old(buf) == []
      ensures received == old(received) + if asked then payload else []
      ensures returned == old(returned) + out
      ensures len > 0 && !asked ==> out != []
      ensures asked && payload != [] ==> out != []
    {
      if len == 0 {
        return [], false;
      }
      out := Data(len);
      if |out| > 0 {
        returned := returned + out;
        return out, false;
      }
      asked := true;
      received := received + payload;
      if |payload| <= len {
        out := payload;
      } else {
        out := payload[..len];
        SetData(payload[len..]);
      }
      returned := returned + out;
    }
  }
}
