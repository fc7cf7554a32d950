/**
 * The thumbnail protocol: a client that writes a command and reads the reply, and a server that reads
 * commands from a message pipe. The two run side by side: at each of the client's scheduling points the server
 * takes as many steps as a script says, and while the client waits for a message it takes as many as it
 * needs. Whatever the script, a run of the client is the run of plain calls to the server's functions.
 */
module Thumbnails {
  import opened Common

  datatype Code = open_file | close_file | seek | set_out_format | get_frame | terminate
                | o_OK | o_EOF | o_UNKNOWN_COMMAND | o_FAIL

  /** The data of a command. */
  datatype Payload = Nothing | FileName(name: string) | Position(p: int)
                   | Format(width: int, height: int, pixel_format: int) | Picture(bytes: seq<byte>)

  /** What travels: a command header, or the data of one. */
  datatype Message = Header(cmd: Code, data_size: int) | Data(payload: Payload)

  function SizeOf(p: Payload): nat {
    match p
    case Nothing => 0
    case FileName(name) => 2 * |name| + 2
    case Position(n) => 8
    case Format(w, h, f) => 12
    case Picture(bytes) => |bytes|
  }

  /** The bytes of a picture of this size, four for each pixel. */
  function PictureSize(width: int, height: int): int {
    width * height * 4
  }

  /** Sizes for which a picture can be allocated. */
  predicate Sized(width: int, height: int) {
    width >= 0 && height >= 0 && 0 <= PictureSize(width, height) < TWO31
  }

  /** A command and its data, as the client writes them. */
  datatype Request = Request(cmd: Code, data: Payload) {
    /** Each command with its own kind of data. */
    predicate Proper() {
      match cmd
      case open_file => data.FileName?
      case seek => data.Position?
      case set_out_format => data.Format? && Sized(data.width, data.height)
      case close_file | get_frame => data == Nothing
      case _ => false
    }

    function Messages(): (msgs: seq<Message>)
      ensures |msgs| == if data == Nothing || SizeOf(data) == 0 then 1 else 2
    {
      if SizeOf(data) == 0 then [Header(cmd, 0)] else [Header(cmd, SizeOf(data)), Data(data)]
    }
  }

  // ----- What the server does with a command -----

  /** The globals of the server, with what its screenshoter will answer and draw. */
  datatype State = State(width: int, height: int, pixel_format: int, answers: seq<bool>, pictures: seq<seq<byte>>)

  function Rest<T>(s: seq<T>): seq<T> {
    if s == [] then [] else s[1..]
  }

  /** Whether the next call succeeds; after the known answers all do. */
  function Answers(s: State): bool {
    s.answers == [] || s.answers[0]
  }

  function Drawn(pictures: seq<seq<byte>>, n: nat): (bytes: seq<byte>)
    ensures |bytes| == n
  {
    if pictures != [] && |pictures[0]| == n then pictures[0] else seq(n, _ => 0)
  }

  /** A command as a plain call: the state after it, and what is to be replied. */
  function Served(s: State, r: Request): (result: (State, seq<Message>))
    requires Sized(s.width, s.height) && r.Proper()
    ensures Sized(result.0.width, result.0.height)
    ensures |result.1| == if r.cmd == get_frame && PictureSize(s.width, s.height) > 0 then 2 else 1
    ensures result.1[0].Header? && (|result.1| == 2 ==> result.1[1].Data? && result.1[1].payload.Picture?)
  {
    var after := s.(answers := Rest(s.answers));
    if r.cmd == get_frame then
      var n := PictureSize(s.width, s.height);
      var header := Header(if Answers(s) then o_OK else o_EOF, n);
      (after.(pictures := Rest(s.pictures)),
       if n > 0 then [header, Data(Picture(Drawn(s.pictures, n)))] else [header])
    else
      var reply := [Header(if Answers(s) then o_OK else o_FAIL, 0)];
      if r.cmd == set_out_format
      then (after.(width := r.data.width, height := r.data.height, pixel_format := r.data.pixel_format), reply)
      else (after, reply)
  }

  // ----- Pipe and server -----

  /** A named pipe in message mode, as one connection sees it. */
  class Pipe {
    var connected: bool
    var toServer: seq<Message>
    var toClient: seq<Message>

    constructor ()
      ensures connected && Empty()
    {
      connected, toServer, toClient := true, [], [];
    }

    predicate Empty()
      reads this
    {
      toServer == [] && toClient == []
    }
  }

  /** Where the server is: about to read a header, to read data, to write a header, or to write a picture. */
  datatype Place =
    AtHeader | AtData(header: Message) | AtReply(ocmd: Message, odata: Payload) | AtPayload(odata: Payload)

  /** The two directions of the pipe and the server, with how much it has written. */
  datatype View = View(toServer: seq<Message>, toClient: seq<Message>, place: Place, state: State, replies: nat,
    payloads: nat)

  /** What process_command leaves of this reply: the data only matters if the header announces some. */
  predicate IsReply(outs: seq<Message>, ocmd: Message, odata: Payload)
    requires |outs| in {1, 2} && (|outs| == 2 ==> outs[1].Data?)
  {
    && ocmd == outs[0] && ocmd.Header?
    && if |outs| == 2 then ocmd.data_size > 0 && odata == outs[1].payload && odata.Picture? else ocmd.data_size == 0
  }

  /**
   * How far a request has come: messages written and read by the client, taken and given by the server, on top
   * of what had been given before.
   */
  datatype Phase = Phase(
    r: Request, before: State, written: nat, read: nat, taken: nat, given: nat, replies: nat, payloads: nat)
  {
    predicate Sensible() {
      && r.Proper() && Sized(before.width, before.height)
      && taken <= written <= |r.Messages()| && read <= given <= |Outs()|
      && (taken < |r.Messages()| ==> given == 0)
    }

    function Outs(): seq<Message>
      requires r.Proper() && Sized(before.width, before.height)
    {
      Served(before, r).1
    }

    /** The server's place, from what it has taken and given. */
    predicate IsAt(place: Place)
      requires Sensible()
    {
      if taken == 0 then place == AtHeader
      else if taken < |r.Messages()| then place == AtData(r.Messages()[0])
      else if given == 0 then place.AtReply? && IsReply(Outs(), place.ocmd, place.odata)
      else if given < |Outs()| then place == AtPayload(Outs()[1].payload)
      else place == AtHeader
    }

    /** What is in the pipe is what has been written and not taken, and given and not read. */
    predicate Holds(v: View) {
      && Sensible()
      && v.toServer == r.Messages()[taken..written] && v.toClient == Outs()[read..given]
      && IsAt(v.place) && v.state == (if taken < |r.Messages()| then before else Served(before, r).0)
      && v.replies == replies + (if given > 0 then 1 else 0) && v.payloads == payloads + (if given > 1 then 1 else 0)
    }

    /** A step of the server, if there is anything for it to do. */
    function Advance(): Phase
      requires Sensible()
    {
      if taken < written then this.(taken := taken + 1)
      else if taken == |r.Messages()| && given < |Outs()| then this.(given := given + 1)
      else this
    }

    lemma AdvanceSensible()
      requires Sensible()
      ensures Advance().Sensible()
    {
      hide Served, PictureSize;
    }

    /** So many steps of the server. */
    ghost function Advanced(k: nat): Phase
      requires Sensible()
      decreases k
    {
      AdvanceSensible();
      if k == 0 then this else Advance().Advanced(k - 1)
    }

    predicate Complete() {
      Sensible() && written == |r.Messages()| && read == |Outs()|
    }

    /** The same request, in which only the server has gone on. */
    predicate Before(later: Phase) {
      && later == this.(taken := later.taken, given := later.given)
      && taken <= later.taken && given <= later.given
    }

    /** The steps the server can still take. */
    function Left(): int {
      |r.Messages()| + 2 - taken - given
    }

    /** The request has been written, and there is more of the reply to read. */
    predicate Due(v: View) {
      Holds(v) && written == |r.Messages()| && read < |Outs()|
    }
  }

  /** How many steps the script gives the server at a scheduling point, and what is left of the script then. */
  function Turns(script: seq<bool>): nat {
    if script == [] || !script[0] then 0 else 1 + Turns(script[1..])
  }

  function AfterTurns(script: seq<bool>): seq<bool> {
    if script == [] then [] else if !script[0] then script[1..] else AfterTurns(script[1..])
  }

  /** The server has gone on by as many steps as the script says. */
  ghost predicate ByScript(ph: Phase, was: seq<bool>, now: seq<bool>, later: Phase) {
    ph.Sensible() && later == ph.Advanced(Turns(was)) && now == AfterTurns(was)
  }

  function FirstPhase(v: View, r: Request): Phase {
    Phase(r, v.state, 0, 0, 0, 0, v.replies, v.payloads)
  }

  predicate Between(v: View) {
    v.place == AtHeader && v.toServer == [] && v.toClient == []
  }

  /** Once the client has read the whole reply, the server is done and the pipe is empty. */
  lemma CompleteIsBetween(ph: Phase, v: View)
    requires ph.Holds(v) && ph.Complete()
    ensures Between(v) && v.state == Served(ph.before, ph.r).0
    ensures v.replies == ph.replies + 1 && v.payloads == ph.payloads + |ph.Outs()| - 1
  {
    hide Served, Sized, PictureSize;
  }

  lemma SensibleHolds(ph: Phase, v: View)
    requires ph.Holds(v)
    ensures ph.Sensible()
  {}

  lemma SameOuts(ph: Phase, later: Phase)
    requires ph.Sensible() && ph.Before(later)
    ensures ph.Outs() == later.Outs()
  {}

  lemma Written(ph: Phase, v: View)
    requires ph.Holds(v) && ph.written < |ph.r.Messages()|
    ensures ph.(written := ph.written + 1).Holds(v.(toServer := v.toServer + [ph.r.Messages()[ph.written]]))
  {
    hide Served, Sized, PictureSize;
  }

  lemma ReadOne(ph: Phase, v: View)
    requires ph.Holds(v) && v.toClient != []
    ensures ph.read < |ph.Outs()| && v.toClient[0] == ph.Outs()[ph.read]
    ensures ph.(read := ph.read + 1).Holds(v.(toClient := v.toClient[1..]))
  {
    hide Served, Sized, PictureSize;
  }

  /** While the client waits for a message that is due, the server has something to do. */
  lemma ServerIsBusy(ph: Phase, v: View)
    requires ph.Due(v) && v.toClient == []
    ensures ph.Sensible() && (ph.taken < ph.written || (ph.taken == |ph.r.Messages()| && ph.given < |ph.Outs()|))
  {
    hide Served, Sized, PictureSize;
    assert |ph.Outs()[ph.read..ph.given]| == ph.given - ph.read;
  }

  lemma AdvanceMoves(ph: Phase)
    requires ph.Sensible() && (ph.taken < ph.written || (ph.taken == |ph.r.Messages()| && ph.given < |ph.Outs()|))
    ensures ph.Before(ph.Advance()) && 0 <= ph.Advance().Left() < ph.Left()
  {
    hide Served, Sized, PictureSize;
    OutsCount(ph);
    hide Phase.Outs, Request.Messages;
  }

  lemma OutsCount(ph: Phase)
    requires ph.Sensible()
    ensures |ph.Outs()| <= 2
  {
    hide Served, Sized, PictureSize;
  }

  lemma StillDue(ph: Phase, v: View, later: Phase, w: View)
    requires ph.Due(v) && ph.Before(later) && later.Holds(w)
    ensures later.Due(w)
  {
    hide Served, Sized, PictureSize;
  }

  lemma Blocked(ph: Phase, v: View)
    requires ph.Holds(v) && (v.place.AtHeader? || v.place.AtData?) && v.toServer == []
    ensures ph.Advance() == ph
  {
    hide Served, Sized, PictureSize;
  }

  /** A picture without pixels: client and server both wait for a message that nobody will write. */
  lemma EmptyPictureHangs(ph: Phase, v: View)
    requires ph.Holds(v) && ph.r.cmd == get_frame && PictureSize(ph.before.width, ph.before.height) == 0
    requires ph.read == 1 && ph.written == |ph.r.Messages()|
    ensures v.toClient == [] && v.toServer == [] && v.place == AtHeader && ph.Advance() == ph
  {}

  class Server {
    var width: int
    var height: int
    var pixel_format: int
    var answers: seq<bool>          // whether the screenshoter's calls to come succeed; after these they do
    var pictures: seq<seq<byte>>    // what it draws
    var place: Place
    ghost var replies: nat          // headers written
    ghost var payloads: nat         // pictures written

    constructor ()
      ensures width == 800 && height == 480 && place == AtHeader && replies == 0 && payloads == 0
    {
      width, height, pixel_format := 800, 480, 30;
      answers, pictures, place := [], [], AtHeader;
      replies, payloads := 0, 0;
    }

    ghost function Globals(): State
      reads this
    {
      State(width, height, pixel_format, answers, pictures)
    }

    ghost function See(pipe: Pipe): View
      reads this, pipe
    {
      View(pipe.toServer, pipe.toClient, place, Globals(), replies, payloads)
    }

    method Answer() returns (ok: bool)
      modifies `answers
      ensures ok == old(Answers(Globals())) && answers == old(Rest(answers))
    {
      ok := answers == [] || answers[0];
      if answers != [] {
        answers := answers[1..];
      }
    }

    method Draw(n: nat) returns (bytes: seq<byte>)
      modifies `pictures
      ensures bytes == old(Drawn(pictures, n)) && pictures == old(Rest(pictures))
    {
      bytes := seq(n, _ => 0);
      if pictures != [] {
        if |pictures[0]| == n {
          bytes := pictures[0];
        }
        pictures := pictures[1..];
      }
    }

    /** process_command: the reply; nothing for a command it does not know. */
    method ProcessCommand(cmd: Code, data: Payload) returns (known: bool, ocmd: Message, odata: Payload)
      requires Sized(width, height)
      requires cmd in {open_file, close_file, seek, set_out_format, get_frame} ==> Request(cmd, data).Proper()
      modifies `width, `height, `pixel_format, `answers, `pictures
      ensures known == (cmd in {open_file, close_file, seek, set_out_format, get_frame})
      ensures !known ==> Globals() == old(Globals())
      ensures known ==>
        var (after, outs) := Served(old(Globals()), Request(cmd, data));
        Globals() == after && IsReply(outs, ocmd, odata)
    {
      odata := Nothing;
      ocmd := Header(o_OK, 0);
      known := true;
      match cmd {
        case open_file | close_file | seek =>
          var ok := Answer();
          ocmd := Header(if ok then o_OK else o_FAIL, 0);
        case set_out_format =>
          width, height, pixel_format := data.width, data.height, data.pixel_format;
          var ok := Answer();
          ocmd := Header(if ok then o_OK else o_FAIL, 0);
        case get_frame =>
          var n := PictureSize(width, height);
          var bytes := Draw(n);
          odata := Picture(bytes);
          var ok := Answer();
          ocmd := Header(if ok then o_OK else o_EOF, n);
        case _ =>
          known := false;
      }
    }

    /**
     * One step of the loop in server_thread: a read with what follows from it, or a write. A read on an empty
     * pipe waits.
     */
    method Step(pipe: Pipe, ghost ph: Phase)
      requires ph.Sensible() && ph.Holds(See(pipe))
      modifies this, pipe`toServer, pipe`toClient
      ensures ph.Advance().Holds(See(pipe))
    {
      hide Phase.Holds, Phase.Advance, Phase.Sensible, Sized, PictureSize;
      match place {
        case AtHeader =>
          if pipe.toServer != [] {
            TakeHeader(pipe, ph);
          } else {
            Blocked(ph, See(pipe));
          }
        case AtData(header) =>
          if pipe.toServer != [] {
            TakeData(pipe, ph);
          } else {
            Blocked(ph, See(pipe));
          }
        case AtReply(ocmd, odata) => GiveHeader(pipe, ph);
        case AtPayload(odata) => GivePayload(pipe, ph);
      }
    }

    method TakeHeader(pipe: Pipe, ghost ph: Phase)
      requires ph.Holds(See(pipe)) && place == AtHeader && pipe.toServer != []
      modifies this, pipe`toServer
      ensures ph.Advance().Holds(See(pipe))
    {
      hide Served, Sized, PictureSize;
      var header := pipe.toServer[0];
      pipe.toServer := pipe.toServer[1..];
      if header.data_size > 0 {
        place := AtData(header);
      } else {
        Process(header.cmd, Nothing);
      }
    }

    method TakeData(pipe: Pipe, ghost ph: Phase)
      requires ph.Holds(See(pipe)) && place.AtData? && pipe.toServer != []
      modifies this, pipe`toServer
      ensures ph.Advance().Holds(See(pipe))
    {
      hide Served, Sized, PictureSize;
      var data := pipe.toServer[0].payload;
      pipe.toServer := pipe.toServer[1..];
      Process(place.header.cmd, data);
    }

    method Process(cmd: Code, data: Payload)
      requires Sized(width, height) && Request(cmd, data).Proper()
      modifies `width, `height, `pixel_format, `answers, `pictures, `place
      ensures var (after, outs) := Served(old(Globals()), Request(cmd, data));
        Globals() == after && place.AtReply? && IsReply(outs, place.ocmd, place.odata)
    {
      hide Served, Sized, PictureSize;
      var known, ocmd, odata := ProcessCommand(cmd, data);
      place := AtReply(ocmd, odata);
    }

    method GiveHeader(pipe: Pipe, ghost ph: Phase)
      requires ph.Holds(See(pipe)) && place.AtReply?
      modifies `place, `replies, pipe`toClient
      ensures ph.Advance().Holds(See(pipe))
    {
      pipe.toClient := pipe.toClient + [place.ocmd];
      replies := replies + 1;
      place := if place.ocmd.data_size > 0 && place.odata != Nothing then AtPayload(place.odata) else AtHeader;
    }

    method GivePayload(pipe: Pipe, ghost ph: Phase)
      requires ph.Holds(See(pipe)) && place.AtPayload?
      modifies `place, `payloads, pipe`toClient
      ensures ph.Advance().Holds(See(pipe))
    {
      hide Served, Sized, PictureSize;
      pipe.toClient := pipe.toClient + [Data(place.odata)];
      payloads := payloads + 1;
      place := AtHeader;
    }
  }

  // ----- The client as plain calls -----

  const error_not_connected := -1
  const error_fail := -2

  /** What the client and the server amount to, without the pipe. */
  datatype Remote = Remote(
    connected: bool, sized: bool, width: int, height: int, pixel_format: int, buffer: Option<seq<byte>>,
    server: State, commands: nat, frames: nat)
  {
    predicate Sane() {
      HasSizes() && (connected && sized ==> buffer.Some? && width == server.width && height == server.height)
    }

    predicate HasSizes() {
      && Sized(width, height) && Sized(server.width, server.height)
      && (buffer.Some? ==> |buffer.value| == PictureSize(width, height))
    }

    /** The server's picture is not empty and fits in the buffer. */
    predicate Fits() {
      buffer.Some? && 0 < PictureSize(server.width, server.height) <= |buffer.value|
    }

    predicate Legal(call: Call) {
      && (call.DoFormat? ==> Sized(call.w, call.h))
      && (call.DoFrame? && connected ==> Fits())
    }

    /** A command is a call of the server. */
    function Ask(r: Request): (result: (Remote, seq<Message>))
      requires Sane() && r.Proper()
    {
      var (after, outs) := Served(server, r);
      (this.(server := after, commands := commands + 1, frames := frames + |outs| - 1), outs)
    }

    /** A command whose reply is a header only, and whose failure ends the connection. */
    function Simple(r: Request): (Remote, int)
      requires Sane() && r.Proper()
    {
      if !connected then (this, error_fail) else
      var (s, outs) := Ask(r);
      if outs[0].cmd == o_FAIL then (s.(connected := false), -1) else (s, 0)
    }

    function SetOutFormat(f: int, w: int, h: int): (Remote, int)
      requires Sane() && Sized(w, h)
    {
      if !connected then (this, error_fail) else
      var (s, code) := Simple(Request(set_out_format, Format(w, h, f)));
      if code != 0 then (s, code) else
      (s.(sized := true, width := w, height := h, pixel_format := f, buffer := Some(Zeros(PictureSize(w, h)))), 0)
    }

    /** Whether the server could open the file is not looked at. */
    function OpenFile(file: string): (Remote, int)
      requires Sane()
    {
      if !connected then (this, error_fail) else
      var (s, outs) := Ask(Request(open_file, FileName(file)));
      s.SetOutFormat(pixel_format, width, height)
    }

    function GetOneFrame(): (Remote, int)
      requires Sane() && (connected ==> Fits())
    {
      if !connected then (this, error_fail) else
      var n := PictureSize(server.width, server.height);
      var (s, outs) := Ask(Request(get_frame, Nothing));
      (s.(buffer := Some(Drawn(server.pictures, n) + buffer.value[n..])), if outs[0].cmd == o_EOF then 1 else 0)
    }

    function Do(call: Call): (Remote, int)
      requires Sane() && Legal(call)
    {
      match call
      case DoConnect => (this.(connected := true, sized := false), 0)
      case DoDisconnect => (this.(connected := false), if connected then 0 else error_not_connected)
      case DoOpen(file) => OpenFile(file)
      case DoSeek(p) => Simple(Request(seek, Position(p)))
      case DoFormat(f, w, h) => SetOutFormat(f, w, h)
      case DoFrame => GetOneFrame()
      case DoClose => Simple(Request(close_file, Nothing))
    }
  }

  datatype Call = DoConnect | DoDisconnect | DoOpen(file: string) | DoSeek(p: int) | DoFormat(f: int, w: int, h: int)
                | DoFrame | DoClose

  function Zeros(n: nat): (s: seq<byte>)
    ensures |s| == n
  {
    seq(n, _ => 0)
  }

  lemma DoSane(s: Remote, call: Call)
    requires s.Sane() && s.Legal(call)
    ensures s.Do(call).0.Sane()
  {}

  /** What goes over the wire: a header with the size of the data, and the data if there are any. */
  lemma WireFormat(name: string, position: int, width: int, height: int, format: int)
    ensures Request(open_file, FileName(name)).Messages()
         == [Header(open_file, 2 * |name| + 2), Data(FileName(name))]
    ensures Request(seek, Position(position)).Messages() == [Header(seek, 8), Data(Position(position))]
    ensures Request(set_out_format, Format(width, height, format)).Messages()
         == [Header(set_out_format, 12), Data(Format(width, height, format))]
    ensures Request(get_frame, Nothing).Messages() == [Header(get_frame, 0)]
    ensures Request(close_file, Nothing).Messages() == [Header(close_file, 0)]
  {}

  /** Without a connection only a connect does anything; the others fail. */
  lemma NotConnected(s: Remote, call: Call)
    requires s.Sane() && s.Legal(call) && !s.connected
    ensures var (next, code) := s.Do(call);
      && code == (if call.DoConnect? then 0 else if call.DoDisconnect? then -1 else -2)
      && next == if call.DoConnect? then s.(connected := true, sized := false) else s
  {}

  /** What the client's calls return and leave, by what the screenshoter answers to them. */
  lemma AnswersTell(s: Remote, call: Call)
    requires s.Sane() && s.Legal(call) && s.connected
    ensures var (next, code) := s.Do(call);
      var ok := s.server.answers == [] || s.server.answers[0];
      && (call.DoSeek? || call.DoClose? ==>
            && code == (if ok then 0 else -1) && next.connected == ok
            && next.server == s.server.(answers := Rest(s.server.answers)) && next.buffer == s.buffer)
      && (call.DoFormat? ==>
            && code == (if ok then 0 else -1) && next.connected == ok
            && next.server.width == call.w && next.server.height == call.h && next.server.pixel_format == call.f
            && next.server.answers == Rest(s.server.answers)
            && (if ok then
                  && next.width == call.w && next.height == call.h && next.pixel_format == call.f
                  && next.buffer.Some? && |next.buffer.value| == call.w * call.h * 4
                else next.width == s.width && next.height == s.height && next.buffer == s.buffer))
      && (call.DoFrame? ==>
            var n := s.server.width * s.server.height * 4;
            && code == (if ok then 0 else 1) && next.connected
            && next.server.answers == Rest(s.server.answers) && next.server.pictures == Rest(s.server.pictures)
            && next.buffer.Some? && n <= |next.buffer.value| == |s.buffer.value|
            && next.buffer.value[n..] == s.buffer.value[n..]
            && (s.server.pictures != [] && |s.server.pictures[0]| == n ==>
                  next.buffer.value[..n] == s.server.pictures[0]))
      && (call.DoOpen? ==>
            var second := Rest(s.server.answers);
            var formatted := second == [] || second[0];
            && code == (if formatted then 0 else -1) && next.connected == formatted
            && next.server.width == s.width && next.server.height == s.height
            && next.server.pixel_format == s.pixel_format && next.server.answers == Rest(second))
  {}

  predicate AllLegal(s: Remote, calls: seq<Call>)
    requires s.Sane()
    decreases |calls|
  {
    calls != [] ==> s.Legal(calls[0]) && (DoSane(s, calls[0]); AllLegal(s.Do(calls[0]).0, calls[1..]))
  }

  function DoAll(s: Remote, calls: seq<Call>): (Remote, seq<int>)
    requires s.Sane() && AllLegal(s, calls)
    decreases |calls|
  {
    if calls == [] then (s, []) else
    DoSane(s, calls[0]);
    var (next, code) := s.Do(calls[0]);
    var (last, codes) := DoAll(next, calls[1..]);
    (last, [code] + codes)
  }

  lemma NoCalls(s: Remote)
    requires s.Sane()
    ensures AllLegal(s, []) && DoAll(s, []) == (s, [])
  {}

  lemma OneMore(all: seq<int>, codes: seq<int>, code: int, s: Remote, calls: seq<Call>)
    requires s.Sane() && calls != [] && AllLegal(s, calls) && s.Do(calls[0]).1 == code
    requires all == codes + DoAll(s, calls).1
    ensures var next := s.Do(calls[0]).0;
      && next.Sane() && AllLegal(next, calls[1..]) && DoAll(s, calls).0 == DoAll(next, calls[1..]).0
      && all == codes + [code] + DoAll(next, calls[1..]).1
  {
    hide Remote.Sane, Remote.Legal, Remote.Do;
    DoSane(s, calls[0]);
    assert DoAll(s, calls).1 == [code] + DoAll(s.Do(calls[0]).0, calls[1..]).1;
  }

  // ----- The client -----

  class RemoteThumbnail {
    var m_connected: bool
    var m_pipe: Pipe
    var m_width: int
    var m_height: int
    var m_pixel_format: int
    var recieved_data: array?<byte>
    var sized: bool            // set_out_format has succeeded on this connection
    var script: seq<bool>      // whose turn it is: the server's, as long as true
    ghost var commands: nat    // headers written
    ghost var frames: nat      // pictures read

    constructor (script: seq<bool>)
      ensures !m_connected && m_width == 400 && m_height == 225 && recieved_data == null && !sized && !m_pipe.connected
      ensures fresh(m_pipe) && commands == 0 && frames == 0 && this.script == script
    {
      m_width, m_height, m_pixel_format := 400, 225, 30;
      m_connected, recieved_data, sized := false, null, false;
      this.script, commands, frames := script, 0, 0;
      m_pipe := new Pipe();
      new;
      m_pipe.connected := false;
    }

    ghost function Abs(server: Server): Remote
      reads this, recieved_data, server
    {
      Remote(m_connected, sized, m_width, m_height, m_pixel_format,
             if recieved_data == null then None else Some(recieved_data[..]), server.Globals(), commands, frames)
    }

    /**
     * Between commands: nothing is left in either direction of the pipe, the server waits for a command, and
     * it has written one header for each command and one picture for each frame.
     */
    ghost predicate InStep(server: Server)
      reads this, recieved_data, m_pipe, server
    {
      Quiet(server) && Abs(server).Sane()
    }

    ghost predicate Quiet(server: Server)
      reads this, recieved_data, m_pipe, server
    {
      && m_pipe.connected == m_connected && (m_connected ==> m_pipe.Empty())
      && server.place == AtHeader && server.replies == commands && server.payloads == frames
      && Abs(server).HasSizes()
    }

    /** A scheduling point: the server goes on for as long as the script says. */
    method Yield(server: Server, ghost ph: Phase) returns (ghost later: Phase)
      requires ph.Holds(server.See(m_pipe))
      modifies `script, server, m_pipe`toServer, m_pipe`toClient
      ensures later.Holds(server.See(m_pipe)) && ph.Before(later)
      ensures ByScript(ph, old(script), script, later)
    {
      SensibleHolds(ph, server.See(m_pipe));
      hide Phase.Holds, Server.See, Sized, PictureSize, Phase.Sensible, Phase.Advance;
      later := ph;
      while script != []
        invariant later.Holds(server.See(m_pipe)) && ph.Before(later)
        invariant later.Sensible() && later.Advanced(Turns(script)) == ph.Advanced(Turns(old(script)))
        invariant AfterTurns(script) == AfterTurns(old(script))
        decreases |script|
      {
        var go := script[0];
        script := script[1..];
        if !go {
          return;
        }
        later := ServerStep(server, later);
        SensibleHolds(later, server.See(m_pipe));
      }
    }

    method ServerStep(server: Server, ghost ph: Phase) returns (ghost later: Phase)
      requires ph.Holds(server.See(m_pipe))
      modifies server, m_pipe`toServer, m_pipe`toClient
      ensures later.Holds(server.See(m_pipe)) && ph.Before(later) && later == ph.Advance()
    {
      later := ph.Advance();
      server.Step(m_pipe, ph);
    }

    /** WriteFile, behind a scheduling point: the next message of the request. Without a connection it fails. */
    method WriteFile(server: Server, msg: Message, ghost ph: Phase) returns (ok: bool, ghost later: Phase)
      requires m_pipe.connected ==> ph.Holds(server.See(m_pipe))
      requires m_pipe.connected ==> ph.written < |ph.r.Messages()| && msg == ph.r.Messages()[ph.written]
      modifies `script, `commands, server, m_pipe`toServer, m_pipe`toClient
      ensures ok == m_pipe.connected && commands == old(commands) + if ok && msg.Header? then 1 else 0
      ensures ok ==> ByScript(ph, old(script), script, later.(written := ph.written))
      ensures if ok then later.Holds(server.See(m_pipe)) && ph.(written := ph.written + 1).Before(later)
              else server.See(m_pipe) == old(server.See(m_pipe))
    {
      later := ph;
      if !m_pipe.connected {
        return false, later;
      }
      hide Phase.Holds, ByScript, Sized, PictureSize;
      later := Yield(server, ph);
      later := Push(server, msg, later);
      return true, later;
    }

    method Push(server: Server, msg: Message, ghost ph: Phase) returns (ghost later: Phase)
      requires ph.Holds(server.See(m_pipe))
      requires ph.written < |ph.r.Messages()| && msg == ph.r.Messages()[ph.written]
      modifies `commands, m_pipe`toServer
      ensures commands == old(commands) + if msg.Header? then 1 else 0
      ensures later == ph.(written := ph.written + 1) && later.Holds(server.See(m_pipe))
    {
      hide Phase.Holds, Sized, PictureSize;
      Written(ph, server.See(m_pipe));
      m_pipe.toServer := m_pipe.toServer + [msg];
      later := ph.(written := ph.written + 1);
      commands := commands + if msg.Header? then 1 else 0;
    }

    /** A read waits until there is a message: the server goes on until it has written one. */
    method Await(server: Server, ghost ph: Phase) returns (ghost later: Phase)
      requires ph.Due(server.See(m_pipe))
      modifies server, m_pipe`toServer, m_pipe`toClient
      ensures later.Due(server.See(m_pipe)) && ph.Before(later) && m_pipe.toClient != []
    {
      hide Phase.Due, Phase.Advance, Phase.Left, Sized, PictureSize;
      later := ph;
      while m_pipe.toClient == []
        invariant later.Due(server.See(m_pipe)) && ph.Before(later)
        decreases later.Left()
      {
        later := ServerGoesOn(server, later);
      }
    }

    method ServerGoesOn(server: Server, ghost ph: Phase) returns (ghost later: Phase)
      requires ph.Due(server.See(m_pipe)) && m_pipe.toClient == []
      modifies server, m_pipe`toServer, m_pipe`toClient
      ensures later.Due(server.See(m_pipe)) && ph.Before(later) && 0 <= later.Left() < ph.Left()
    {
      ghost var v := server.See(m_pipe);
      ServerIsBusy(ph, v);
      AdvanceMoves(ph);
      later := ph.Advance();
      assert ph.Holds(v);
      hide Phase.Holds, Phase.Due, Phase.Advance, Phase.Left, Sized, PictureSize;
      server.Step(m_pipe, ph);
      StillDue(ph, v, later, server.See(m_pipe));
    }

    /** ReadFile, behind a scheduling point: the next message of the reply, once the server has written it. */
    method ReadFile(server: Server, ghost ph: Phase) returns (msg: Message, ghost later: Phase)
      requires ph.Due(server.See(m_pipe))
      modifies `script, `frames, server, m_pipe`toServer, m_pipe`toClient
      ensures later.Sensible() && later.Holds(server.See(m_pipe)) && ph.(read := ph.read + 1).Before(later)
      ensures ph.Sensible() && ph.read < |ph.Outs()| && msg == ph.Outs()[ph.read]
      ensures frames == old(frames) + if msg.Data? then 1 else 0
    {
      ghost var v := server.See(m_pipe);
      assert ph.Holds(v);
      hide Phase.Holds, Phase.Due, Served, Sized, PictureSize, Server.See;
      later := Yield(server, ph);
      StillDue(ph, v, later, server.See(m_pipe));
      later := Await(server, later);
      SensibleHolds(ph, v);
      SameOuts(ph, later);
      msg, later := Pop(server, later);
    }

    method Pop(server: Server, ghost ph: Phase) returns (msg: Message, ghost later: Phase)
      requires ph.Due(server.See(m_pipe)) && m_pipe.toClient != []
      modifies `frames, m_pipe`toClient
      ensures later.Sensible() && later.Holds(server.See(m_pipe)) && later == ph.(read := ph.read + 1)
      ensures ph.Sensible() && ph.read < |ph.Outs()| && msg == ph.Outs()[ph.read]
      ensures frames == old(frames) + if msg.Data? then 1 else 0
    {
      ReadOne(ph, server.See(m_pipe));
      hide Phase.Due, Phase.Holds, Served, Sized, PictureSize;
      later := ph.(read := ph.read + 1);
      msg := m_pipe.toClient[0];
      m_pipe.toClient := m_pipe.toClient[1..];
      frames := frames + if msg.Data? then 1 else 0;
      SensibleHolds(later, server.See(m_pipe));
    }

    method Disconnect() returns (code: int)
      modifies `m_connected, m_pipe
      ensures !m_connected && (old(m_connected) ==> !m_pipe.connected)
      ensures !old(m_connected) ==> m_pipe.connected == old(m_pipe.connected)
      ensures code == if old(m_connected) then 0 else error_not_connected
    {
      if !m_connected {
        return error_not_connected;
      }
      m_connected := false;
      m_pipe.connected, m_pipe.toServer, m_pipe.toClient := false, [], [];
      return 0;
    }

    /** connect, to a server that accepts: a new pipe. */
    method Connect(server: Server) returns (code: int)
      requires InStep(server)
      modifies `m_connected, `m_pipe, `sized, m_pipe
      ensures InStep(server) && fresh(m_pipe)
      ensures (Abs(server), code) == old(Abs(server)).Do(DoConnect)
    {
      var d := Disconnect();
      m_pipe := new Pipe();
      m_connected := true;
      sized := false;
      return 0;
    }

    /** error_exit: on_error disconnects. */
    method ErrorExit(error: int) returns (code: int)
      modifies `m_connected, m_pipe
      ensures code == error && !m_connected
      ensures old(m_connected) ==> !m_pipe.connected
      ensures !old(m_connected) ==> m_pipe.connected == old(m_pipe.connected)
    {
      var d := Disconnect();
      return error;
    }

    /** A command out, with its data if there is any, and the header of the reply back. */
    method Exchange(server: Server, r: Request) returns (ok: bool, header: Message, ghost ph: Phase)
      requires InStep(server) && r.Proper()
      modifies `script, `commands, `frames, server, m_pipe`toServer, m_pipe`toClient
      ensures ok == m_connected && frames == old(frames)
      ensures !ok ==> InStep(server) && Abs(server) == old(Abs(server))
      ensures ok ==>
        && commands == old(commands) + 1 && header == Served(old(server.Globals()), r).1[0]
        && HeaderRead(server, r, old(server.Globals()), old(server.replies), old(server.payloads), ph)
    {
      hide Served, Sized, PictureSize;
      header := Header(o_FAIL, 0);
      ph := FirstPhase(server.See(m_pipe), r);
      ok, ph := WriteFile(server, r.Messages()[0], ph);
      if !ok {
        return;
      }
      if SizeOf(r.data) > 0 {
        ok, ph := WriteFile(server, r.Messages()[1], ph);
      }
      header, ph := ReadFile(server, ph);
    }

    /** The request has been written, and of the reply the header has been read. */
    ghost predicate HeaderRead(server: Server, r: Request, before: State, replies: nat, payloads: nat, ph: Phase)
      reads this, m_pipe, server
    {
      && ph.Sensible() && ph.Holds(server.See(m_pipe)) && ph.r == r && ph.before == before
      && ph.replies == replies && ph.payloads == payloads
      && ph.written == |r.Messages()| && ph.read == 1
    }

    /** A command whose reply is a header only, and whose failure ends the connection. */
    method Simple(server: Server, r: Request) returns (code: int)
      requires InStep(server) && r.Proper() && r.cmd != get_frame
      modifies `script, `commands, `frames, `m_connected, m_pipe, server
      ensures Quiet(server) && (Abs(server), code) == old(Abs(server)).Simple(r)
      ensures r.cmd != set_out_format || code != 0 ==> InStep(server)
    {
      hide Phase.Holds, Sized, PictureSize;
      ghost var before := server.Globals();
      var ok, header, ph := Exchange(server, r);
      if !ok {
        code := ErrorExit(error_fail);
        return;
      }
      CompleteIsBetween(ph, server.See(m_pipe));
      if header.cmd == o_FAIL {
        code := ErrorExit(-1);
        return;
      }
      return 0;
    }

    method Seek(server: Server, position: int) returns (code: int)
      requires InStep(server)
      modifies `script, `commands, `frames, `m_connected, m_pipe, server
      ensures InStep(server) && (Abs(server), code) == old(Abs(server)).Do(DoSeek(position))
    {
      code := Simple(server, Request(seek, Position(position)));
    }

    method Close(server: Server) returns (code: int)
      requires InStep(server)
      modifies `script, `commands, `frames, `m_connected, m_pipe, server
      ensures InStep(server) && (Abs(server), code) == old(Abs(server)).Do(DoClose)
    {
      code := Simple(server, Request(close_file, Nothing));
    }

    /** set_out_format: on success the buffer has the size of the server's pictures; a refusal ends the connection. */
    method SetOutFormat(server: Server, pixel_format: int, width: int, height: int) returns (code: int)
      requires InStep(server) && Sized(width, height)
      modifies this, m_pipe, server
      ensures InStep(server) && m_pipe == old(m_pipe)
      ensures (Abs(server), code) == old(Abs(server)).SetOutFormat(pixel_format, width, height)
      ensures recieved_data == old(recieved_data) || (recieved_data != null && fresh(recieved_data))
      ensures code == 0 ==> recieved_data != null && recieved_data.Length == PictureSize(server.width, server.height)
    {
      code := Simple(server, Request(set_out_format, Format(width, height, pixel_format)));
      if code != 0 {
        return;
      }
      m_width, m_height, m_pixel_format := width, height, pixel_format;
      recieved_data := new byte[PictureSize(m_width, m_height)](_ => 0);
      sized := true;
      assert recieved_data[..] == Zeros(PictureSize(m_width, m_height));
    }

    /** open_file: whether the server could open the file is not looked at; the format is set either way. */
    method OpenFile(server: Server, file: string) returns (code: int)
      requires InStep(server)
      modifies this, m_pipe, server
      ensures InStep(server) && m_pipe == old(m_pipe)
      ensures (Abs(server), code) == old(Abs(server)).Do(DoOpen(file))
      ensures recieved_data == old(recieved_data) || (recieved_data != null && fresh(recieved_data))
    {
      code := AskToOpen(server, file);
      if code < 0 {
        return;
      }
      code := SetOutFormat(server, m_pixel_format, m_width, m_height);
    }

    method AskToOpen(server: Server, file: string) returns (code: int)
      requires InStep(server)
      modifies `script, `commands, `frames, `m_connected, m_pipe, server
      ensures InStep(server)
      ensures if old(m_connected)
        then code == 0 && Abs(server) == old(Abs(server)).Ask(Request(open_file, FileName(file))).0
              else code == error_fail && Abs(server) == old(Abs(server))
    {
      hide Phase.Holds, Sized, PictureSize;
      ghost var before := server.Globals();
      var ok, header, ph := Exchange(server, Request(open_file, FileName(file)));
      if !ok {
        code := ErrorExit(error_fail);
        return;
      }
      CompleteIsBetween(ph, server.See(m_pipe));
      return 0;
    }

    /** get_one_frame: the picture fills the front of the buffer; at the end of the film it comes too, with result 1. */
    method GetOneFrame(server: Server) returns (code: int)
      requires InStep(server) && (m_connected ==> Abs(server).Fits())
      modifies `script, `commands, `frames, `m_connected, m_pipe, server, recieved_data
      ensures InStep(server) && (Abs(server), code) == old(Abs(server)).Do(DoFrame)
    {
      hide Phase.Holds, Sized, PictureSize;
      ghost var before := server.Globals();
      var ok, header, ph := Exchange(server, Request(get_frame, Nothing));
      if !ok {
        code := ErrorExit(error_fail);
        return;
      }
      var data;
      data, ph := ReadFile(server, ph);
      CompleteIsBetween(ph, server.See(m_pipe));
      Fill(data.payload.bytes);
      return if header.cmd == o_EOF then 1 else 0;
    }

    method Fill(picture: seq<byte>)
      requires recieved_data != null && |picture| <= recieved_data.Length
      modifies recieved_data
      ensures recieved_data[..] == picture + old(recieved_data[..])[|picture|..]
    {
      forall k | 0 <= k < |picture| {
        recieved_data[k] := picture[k];
      }
    }

    // ----- Every run -----

    method Do(server: Server, call: Call) returns (code: int)
      requires InStep(server) && Abs(server).Legal(call)
      modifies this, m_pipe, server, recieved_data
      ensures InStep(server) && (Abs(server), code) == old(Abs(server)).Do(call)
      ensures m_pipe == old(m_pipe) || fresh(m_pipe)
      ensures recieved_data == old(recieved_data) || (recieved_data != null && fresh(recieved_data))
    {
      match call {
        case DoConnect => code := Connect(server);
        case DoDisconnect => code := Disconnect();
        case DoOpen(file) => code := OpenFile(server, file);
        case DoSeek(p) => code := Seek(server, p);
        case DoFormat(f, w, h) => code := SetOutFormat(server, f, w, h);
        case DoFrame => code := GetOneFrame(server);
        case DoClose => code := Close(server);
      }
    }

    /**
     * Client and server stay in step: whatever the script, a run of calls over the pipe has the results of the
     * plain calls, leaves the same state, and between calls the pipe is empty, with one header written by the
     * server for each command of the client and one picture for each frame.
     */
    method Run(server: Server, calls: seq<Call>) returns (codes: seq<int>)
      requires InStep(server) && AllLegal(Abs(server), calls)
      modifies this, m_pipe, server, recieved_data
      ensures InStep(server)
      ensures (Abs(server), codes) == DoAll(old(Abs(server)), calls)
    {
      hide Remote.Sane, Remote.Legal, Remote.Do, Abs;
      codes := [];
      var i := 0;
      ghost var all := DoAll(Abs(server), calls);
      assert calls[0..] == calls;
      while i < |calls|
        invariant 0 <= i <= |calls|
        invariant InStep(server) && AllLegal(Abs(server), calls[i..])
        invariant m_pipe == old(m_pipe) || fresh(m_pipe)
        invariant recieved_data == old(recieved_data) || (recieved_data != null && fresh(recieved_data))
        invariant all.0 == DoAll(Abs(server), calls[i..]).0
        invariant all.1 == codes + DoAll(Abs(server), calls[i..]).1
      {
        assert calls[i..][1..] == calls[i + 1..];
        ghost var before := Abs(server);
        var code := Do(server, calls[i]);
        OneMore(all.1, codes, code, before, calls[i..]);
        codes := codes + [code];
        i := i + 1;
      }
      assert calls[i..] == [];
      NoCalls(Abs(server));
      assert codes + [] == codes;
    }
  }
}
