/** A WebSocket connection read as one stream of bytes: message boundaries disappear. */
module WsAdapter {
  import opened Prelude

  newtype byte = x: int | 0 <= x < 256

  datatype Message = Message(binary: bool, payload: seq<byte>)

  /** How the library's reader for one message answers: how much it is willing to copy, and how it ends the call. */
  datatype InnerEnd = Fine | WithEof | Faulty

  datatype Answer = Answer(willing: nat, end: InnerEnd)

  datatype ReadError = NoError | ConnectionOver | UnexpectedMessageType | ReaderFailed

  function Payloads(messages: seq<Message>): seq<byte> {
    if messages == [] then []
    else (if messages[0].binary then messages[0].payload else []) + Payloads(messages[1..])
  }

  class Adapter {
    /** Messages still to come, and what is left of the one being read. */
    var messages: seq<Message>
    var reader: Option<seq<byte>>

    function Unread(): seq<byte>
      reads this
    {
      (if reader.Some? then reader.value else []) + Payloads(messages)
    }

    constructor (messages: seq<Message>)
      ensures Unread() == Payloads(messages)
    {
      this.messages := messages;
      this.reader := None;
    }

    /** What is left of the message being read, or the message to be read next. */
    function Current(): seq<byte>
      reads this
    {
      if reader.Some? then reader.value else if messages != [] then messages[0].payload else []
    }

    /**
     * One Read into a buffer of the given size. The inner reader copies what fits of what it is willing to
     * give; it reports the message's end only once nothing of it is left, possibly with the last bytes.
     */
    method Read(size: nat, answer: Answer) returns (bytes: seq<byte>, err: ReadError)
      modifies this
      ensures forall m | m in messages :: m in old(messages)
      ensures err == NoError ==> bytes + Unread() == old(Unread())
      ensures |bytes| <= size && bytes <= old(Unread())
      ensures err == ConnectionOver <==> old(reader.None? && messages == [])
      ensures err == UnexpectedMessageType <==> old(reader.None? && messages != [] && !messages[0].binary)
      ensures err == ReaderFailed <==>
                old(reader.Some? || (messages != [] && messages[0].binary)) && answer.end == Faulty
      ensures err == NoError || err == ReaderFailed ==>
                bytes == old(Current())[..Min(Min(answer.willing, size), |old(Current())|)]
      ensures err == NoError ==> (reader.None? <==> answer.end == WithEof && bytes == old(Current()))
      ensures err == ReaderFailed ==> reader.None?
    {
      if reader.None? {
        if messages == [] {
          return [], ConnectionOver;
        }
        var message := messages[0];
        messages := messages[1..];
        if !message.binary {
          return [], UnexpectedMessageType;
        }
        reader := Some(message.payload);
        assert Unread() == old(Unread());
      }
      var rest := reader.value;
      var n := Min(Min(answer.willing, size), |rest|);
      bytes := rest[..n];
      assert rest == bytes + rest[n..];
      reader := Some(rest[n..]);
      err := NoError;
      if answer.end == Faulty {
        reader := None;
        err := ReaderFailed;
      } else if answer.end == WithEof && n == |rest| {
        reader := None;
      }
    }

    /**
     * Any sequence of Reads, up to and including the first that fails, returns a prefix of the stream, and all of
     * it once the connection is over. If every message is binary and no inner reader fails, only the end of the
     * connection stops it.
     */
    method ReadMany(sizes: seq<nat>, answers: seq<Answer>) returns (all: seq<byte>, err: ReadError)
      requires |sizes| == |answers|
      modifies this
      ensures all <= old(Unread())
      ensures err == NoError ==> all + Unread() == old(Unread())
      ensures err == ConnectionOver ==> all == old(Unread())
      ensures (forall m | m in old(messages) :: m.binary) && (forall a | a in answers :: a.end != Faulty) ==>
                err == NoError || err == ConnectionOver
    {
      all, err := [], NoError;
      for i := 0 to |sizes|
        invariant err == NoError && all + Unread() == old(Unread())
        invariant forall m | m in messages :: m in old(messages)
      {
        ghost var before := Unread();
        ghost var got := all;
        var bytes;
        bytes, err := Read(sizes[i], answers[i]);
        all := all + bytes;
        assert before == bytes + before[|bytes|..];
        assert old(Unread()) == all + before[|bytes|..] by { assert got + before == old(Unread()); }
        if err != NoError {
          return;
        }
      }
    }
  }
}
