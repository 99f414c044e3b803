/** src/async_event_loop/tcp_line_protocol.hpp: TcpLineServerHandler, connections over line-reading slots. */
module TcpLineServer {
  import opened Bytes
  import opened LineSessions
  import B = Backpressure
  import L = LineReader

  /** One slot: its binding, what its line reader has buffered, and its monitor. */
  datatype Slot = Slot(connection: Connection?, line: seq<Byte>, monitor: B.Monitor)

  /** What the server tells the handler. */
  datatype Event =
    | Accept(connection: Connection)
    | Data(connection: Connection)
    | WriteReady(connection: Connection)
    | Close(connection: Connection)
    | Error(connection: Connection)

  function Unbound(slot: Slot): Slot {
    Slot(null, slot.line, B.FRESH)
  }

  /** A slot, left alone but for its monitor, or unbound; its reader keeps what it has buffered. */
  predicate Stays(slot: Slot, slot': Slot) {
    slot' == Unbound(slot) || slot' == slot.(monitor := slot'.monitor)
  }

  /** How a slot's sessions go on: past ones stay, the open one only takes more bytes, new ones come behind;
      and a slot bound without a new session has been bound all along, to the same connection. */
  predicate GoesOn(slot: Slot, history: seq<Session>, slot': Slot, history': seq<Session>) {
    && |history| <= |history'|
    && (forall j :: 0 <= j < |history| ==> Extends(history[j], history'[j]))
    && (forall j :: 0 <= j < |history| && (slot.connection == null || j < |history| - 1) ==> history'[j] == history[j])
    && (slot'.connection != null && |history'| == |history| ==> slot'.connection == slot.connection)
  }

  /** No line ends before the last byte, so the application is not called in between. */
  predicate Unbroken(input: seq<Byte>) {
    forall i :: 0 <= i < |input| - 1 ==> input[i] != '\n'
  }

  /** One more byte of such an input has been read. */
  lemma NextUnbroken(taken0: seq<Byte>, input0: seq<Byte>, taken: seq<Byte>, input: seq<Byte>, input': seq<Byte>)
    requires Unbroken(input0) && taken + input == taken0 + input0 && |taken0| <= |taken| && input != []
    requires |input'| < |input| && (input[0] != '\n' ==> input' == input[1..])
    ensures taken + [input[0]] + input' == taken0 + input0
    ensures input[0] == '\n' ==> input' == []
  {
    var j := |taken| - |taken0|;
    assert input[0] == (taken + input)[|taken|] == (taken0 + input0)[|taken|] == input0[j];
    assert |input| == |input0| - j;
    assert taken + input == taken + [input[0]] + input[1..];
  }

  /** Of an input that ends no line before its last byte nothing has been lost so far. */
  ghost predicate InStep(c: Connection, taken: seq<Byte>, input: seq<Byte>)
    reads c
  {
    Unbroken(input) && c.taken + c.input == taken + input && |taken| <= |c.taken| && (c.input != [] ==> c.valid)
  }

  lemma Drained(c: Connection, taken: seq<Byte>, input: seq<Byte>)
    requires InStep(c, taken, input) && (!c.valid || c.input == [])
    ensures c.taken == taken + input
  {
    assert c.taken + [] == c.taken;
  }

  /** The three ways in which one event lets a slot go on. */
  lemma StaysGoesOn(slot: Slot, history: seq<Session>, slot': Slot)
    requires slot'.connection == null || slot'.connection == slot.connection
    ensures GoesOn(slot, history, slot', history)
  {
  }

  lemma LongerGoesOn(slot: Slot, history: seq<Session>, slot': Slot, history': seq<Session>)
    requires Longer(history, history') && (slot'.connection == null || slot'.connection == slot.connection)
    requires slot.connection != null
    ensures GoesOn(slot, history, slot', history')
  {
    assert forall j :: 0 <= j < |history| - 1 ==> history'[j] == history'[..|history| - 1][j] == history[j];
  }

  lemma OpenedGoesOn(slot: Slot, history: seq<Session>, slot': Slot, history': seq<Session>)
    requires slot.connection == null && |history'| == |history| + 1 && history'[..|history|] == history
    ensures GoesOn(slot, history, slot', history')
  {
    assert forall j :: 0 <= j < |history| ==> history'[j] == history'[..|history|][j];
  }

  lemma {:induction false} GoesOnTrans(a: Slot, h: seq<Session>, a1: Slot, h1: seq<Session>, a2: Slot, h2: seq<Session>)
    requires GoesOn(a, h, a1, h1) && GoesOn(a1, h1, a2, h2)
    ensures GoesOn(a, h, a2, h2)
  {
    forall j | 0 <= j < |h| ensures Extends(h[j], h2[j]) {
      assert Extends(h[j], h1[j]) && Extends(h1[j], h2[j]);
    }
  }

  class TcpLineServerHandler {
    const bufferSize: nat
    const options: B.Options
    const slots: array<Slot>
    /** Every connection there is; the application's callbacks may do anything to them. */
    const connections: set<Connection>
    /** Each slot's sessions, oldest first; the last one is open while the slot is bound. */
    ghost var sessions: seq<seq<Session>>

    /** A slot's sessions took contiguous runs of their connections' bytes, each was given the lines its reader
        made of them, and the reader now holds what they left. An open session has all its connection gave. */
    ghost predicate SlotValid(slot: Slot, history: seq<Session>)
      reads connections
    {
      && Chained(bufferSize, history) && slot.line == Leftover(bufferSize, history)
      && (forall j :: 0 <= j < |history| ==> history[j].connection in connections && Took(history[j]))
      && (slot.connection != null ==>
            && history != [] && history[|history| - 1].connection == slot.connection
            && history[|history| - 1].from + |history[|history| - 1].bytes| == |slot.connection.taken|)
    }

    /** And a connection is bound to one slot at most. */
    ghost predicate Valid()
      reads this, slots, connections
    {
      && |sessions| == slots.Length
      && (forall i, j :: 0 <= i < j < slots.Length && slots[i].connection != null ==>
            slots[i].connection != slots[j].connection)
      && (forall i :: 0 <= i < slots.Length ==> SlotValid(slots[i], sessions[i]))
      && forall i :: 0 <= i < slots.Length ==> slots[i].monitor.overHighPolls <= B.MAX32
    }

    /** Unbinding slots, changing monitors and doing things to connections keeps everything in order. */
    twostate lemma StillValid()
      requires old(Valid()) && sessions == old(sessions)
      requires forall c :: c in connections ==> c.taken == old(c.taken)
      requires forall i :: 0 <= i < slots.Length ==>
                 && slots[i].line == old(slots[i]).line && slots[i].monitor.overHighPolls <= B.MAX32
                 && (slots[i].connection == old(slots[i]).connection || slots[i].connection == null)
      ensures Valid()
    {
      hide Chained, Leftover;
      forall i | 0 <= i < slots.Length ensures SlotValid(slots[i], sessions[i]) {
        assert old(SlotValid(slots[i], sessions[i]));
        forall j | 0 <= j < |sessions[i]| ensures sessions[i][j].connection in connections && Took(sessions[i][j]) {
          assert old(Took(sessions[i][j]));
        }
      }
    }

    /** Binding a free slot opens a session in it. */
    lemma OpenedValid(slot: Slot, history: seq<Session>, c: Connection)
      requires SlotValid(slot, history) && c in connections
      ensures SlotValid(Slot(c, slot.line, B.FRESH), history + [Session(c, slot.line, |c.taken|, [], [])])
    {
      hide Chained, Leftover, RunOf;
      var s := Session(c, slot.line, |c.taken|, [], []);
      OpenedChain(bufferSize, history, s);
      NothingTaken(s, c.taken);
    }

    /** A byte read from the connection and fed to the reader of its slot. */
    twostate lemma FedValid(k: nat, new byte: Byte)
      requires k < slots.Length == |sessions| == |old(sessions)|
      requires old(SlotValid(slots[k], sessions[k])) && old(slots[k]).connection != null
      requires old(slots[k]).connection.taken == old(slots[k].connection.taken) + [byte]
      requires forall c :: c in connections && c != old(slots[k]).connection ==> c.taken == old(c.taken)
      requires slots[k] == old(slots[k]).(line := LineAfter(bufferSize, old(slots[k]).line, byte))
      requires var h := old(sessions[k]);
               sessions[k] == h[|h| - 1 := Fed(bufferSize, h[|h| - 1], old(slots[k]).line, byte)]
      ensures SlotValid(slots[k], sessions[k])
    {
      hide Chained, Leftover, Fed, LineAfter, RunOf;
      var history, taken := old(sessions[k]), old(slots[k].connection.taken);
      var n := |history| - 1;
      FedChain(bufferSize, history, byte);
      assert old(Took(history[n]));
      FedTook(history[n], sessions[k][n], taken, byte);
      forall j | 0 <= j < n ensures sessions[k][j].connection in connections && Took(sessions[k][j]) {
        assert old(Took(history[j]));
        if history[j].connection == slots[k].connection {
          MoreTaken(history[j], taken, taken + [byte]);
        }
      }
    }

    twostate predicate OnlySlot(k: nat)
      reads this, slots
    {
      && k < slots.Length == |sessions| == |old(sessions)|
      && forall i :: 0 <= i < slots.Length && i != k ==> slots[i] == old(slots[i]) && sessions[i] == old(sessions[i])
    }

    /** The slots of other connections do not notice. */
    twostate lemma OthersValid(k: nat)
      requires old(Valid()) && OnlySlot(k) && old(slots[k]).connection != null
      requires old(slots[k].connection.taken) <= old(slots[k]).connection.taken
      requires forall c :: c in connections && c != old(slots[k]).connection ==> c.taken == old(c.taken)
      ensures forall i :: 0 <= i < slots.Length && i != k ==> SlotValid(slots[i], sessions[i])
    {
      hide Chained, Leftover;
      forall i | 0 <= i < slots.Length && i != k ensures SlotValid(slots[i], sessions[i]) {
        assert old(SlotValid(slots[i], sessions[i]));
        forall j | 0 <= j < |sessions[i]| ensures sessions[i][j].connection in connections && Took(sessions[i][j]) {
          assert old(Took(sessions[i][j]));
          MoreTaken(sessions[i][j], old(sessions[i][j].connection.taken), sessions[i][j].connection.taken);
        }
      }
    }

    /** One byte from slot k's connection to its reader keeps everything in order. */
    twostate lemma ByteValid(k: nat, new byte: Byte)
      requires old(Valid()) && OnlySlot(k) && old(slots[k]).connection != null
      requires old(slots[k]).connection.taken == old(slots[k].connection.taken) + [byte]
      requires forall c :: c in connections && c != old(slots[k]).connection ==> c.taken == old(c.taken)
      requires slots[k] == old(slots[k]).(line := LineAfter(bufferSize, old(slots[k]).line, byte))
      requires var h := old(sessions[k]);
               h != [] && sessions[k] == h[|h| - 1 := Fed(bufferSize, h[|h| - 1], old(slots[k]).line, byte)]
      ensures Valid()
    {
      hide SlotValid, Fed, LineAfter;
      FedValid(k, byte);
      OthersValid(k);
    }

    constructor (bufferSize: nat, maxConnections: nat, options: B.Options, connections: set<Connection>)
      ensures Valid() && slots.Length == maxConnections && fresh(slots)
      ensures forall i :: 0 <= i < maxConnections ==> slots[i] == Slot(null, [], B.FRESH) && sessions[i] == []
      ensures this.connections == connections && this.bufferSize == bufferSize && this.options == options
    {
      this.bufferSize, this.options, this.connections := bufferSize, options, connections;
      slots := new Slot[maxConnections](_ => Slot(null, [], B.FRESH));
      sessions := seq(maxConnections, _ => []);
    }

    /** A callback of the application: it may close connections, write to them and read from them, but received
        bytes only arrive between events, and it does not call back into this handler. Only the
        readers' bytes are recorded. */
    method Callback()
      modifies connections`valid, connections`input, connections`outputSize
      ensures forall c :: c in connections ==> Receded(c)
    {
      var rest := connections;
      while rest != {}
        invariant rest <= connections
        invariant forall c :: c in connections ==> Receded(c)
        decreases |rest|
      {
        var c :| c in rest;
        var open: bool := *;
        c.valid := c.valid && open;
        c.outputSize := *;
        var k :| 0 <= k <= |c.input|;
        c.input := c.input[k..];
        rest := rest - {c};
      }
    }

    /** Nothing arrived on the connection, and it has not come back. */
    twostate predicate Receded(c: Connection)
      reads c
    {
      |c.input| <= old(|c.input|) && (c.valid ==> old(c.valid))
    }

    /** What happens to the connections between two events: anything, except that no reader takes a byte. */
    method Outside()
      modifies connections`valid, connections`input, connections`outputSize
    {
      var rest := connections;
      while rest != {}
        invariant rest <= connections
        decreases |rest|
      {
        var c :| c in rest;
        c.valid := *;
        c.input := *;
        c.outputSize := *;
        rest := rest - {c};
      }
    }

    method Find(c: Connection) returns (k: Option<nat>)
      ensures k.Some? ==> k.value < slots.Length && slots[k.value].connection == c
      ensures k.None? ==> forall i :: 0 <= i < slots.Length ==> slots[i].connection != c
    {
      for i := 0 to slots.Length
        invariant forall j :: 0 <= j < i ==> slots[j].connection != c
      {
        if slots[i].connection == c {
          return Some(i);
        }
      }
      return None;
    }

    /** Slot k is the one the connection had, its sessions as they were; or no slot had it, k was the first free
        one, and a session has been opened in it that starts with what the slot's reader held. With no slot
        free, there is none. Other slots and sessions are as they were. */
    twostate predicate Acquired(c: Connection, new k: Option<nat>)
      reads this, slots, c
    {
      if k.None? then
        && slots[..] == old(slots[..]) && sessions == old(sessions)
        && forall i :: 0 <= i < slots.Length ==> slots[i].connection != null && slots[i].connection != c
      else
        && k.value < slots.Length == |sessions| == |old(sessions)|
        && slots[k.value].connection == c && slots[k.value].line == old(slots[k.value]).line
        && (forall i :: 0 <= i < slots.Length && i != k.value ==>
              slots[i] == old(slots[i]) && sessions[i] == old(sessions[i]))
        && if old(slots[k.value]).connection == c then sessions[k.value] == old(sessions[k.value])
           else && old(slots[k.value]).connection == null
                && slots[k.value].monitor == B.FRESH
                && (forall i :: 0 <= i < slots.Length ==> old(slots[i]).connection != c)
                && (forall i :: 0 <= i < k.value ==> old(slots[i]).connection != null)
                && sessions[k.value] == old(sessions[k.value])
                                        + [Session(c, old(slots[k.value]).line, |old(c.taken)|, [], [])]
    }

    /** The slot the connection is bound to, or the first free one, newly bound; None when all are taken. */
    method Acquire(c: Connection) returns (k: Option<nat>)
      requires Valid() && c in connections
      modifies this`sessions, slots
      ensures Valid() && Acquired(c, k)
      ensures k.Some? && old(slots[k.value]).connection == c ==> slots[k.value] == old(slots[k.value])
    {
      hide SlotValid;
      k := Find(c);
      if k.Some? {
        return;
      }
      for i := 0 to slots.Length
        invariant forall j :: 0 <= j < i ==> slots[j].connection != null
        invariant slots[..] == old(slots[..]) && sessions == old(sessions)
      {
        assert slots[i] == slots[..][i] == old(slots[..])[i];
        if slots[i].connection == null {
          Bind(i, c);
          return Some(i);
        }
      }
      assert forall i :: 0 <= i < slots.Length ==> slots[i] == slots[..][i] == old(slots[..])[i];
      return None;
    }

    /** The stream is bound to the connection and the monitor reset; the reader keeps its buffer. */
    method Bind(i: nat, c: Connection)
      requires Valid() && c in connections && i < slots.Length && slots[i].connection == null
      requires forall j :: 0 <= j < slots.Length ==> slots[j].connection != c
      modifies this`sessions, slots
      ensures Valid()
      ensures slots[..] == old(slots[..])[i := Slot(c, old(slots[i]).line, B.FRESH)]
      ensures sessions == old(sessions)[i := old(sessions[i]) + [Session(c, old(slots[i]).line, |c.taken|, [], [])]]
    {
      OpenedValid(slots[i], sessions[i], c);
      hide SlotValid;
      sessions := sessions[i := sessions[i] + [Session(c, slots[i].line, |c.taken|, [], [])]];
      slots[i] := Slot(c, slots[i].line, B.FRESH);
    }

    /** Unbinds the connection's slot, if it has one. Its line buffer stays as it is. */
    method Release(c: Connection)
      requires Valid()
      modifies slots
      ensures Valid()
      ensures forall i :: 0 <= i < slots.Length ==>
                slots[i] == if old(slots[i]).connection == c then Unbound(old(slots[i])) else old(slots[i])
    {
      hide SlotValid;
      var k := Find(c);
      if k.Some? {
        slots[k.value] := Unbound(slots[k.value]);
      }
      StillValid();
    }

    /** The connection has a slot afterwards if it had one or one was free; its monitor starts afresh. */
    method OnAccept(c: Connection) returns (ghost k: Option<nat>)
      requires Valid() && c in connections
      modifies this`sessions, slots, connections`valid, connections`input, connections`outputSize
      ensures Valid() && Acquired(c, k) && (k.Some? ==> slots[k.value].monitor == B.FRESH)
    {
      hide SlotValid;
      var slot := Acquire(c);
      k := slot;
      label Bound:
      if slot.Some? {
        slots[slot.value] := slots[slot.value].(monitor := B.FRESH);
      }
      Callback();  // on_accept, or on_too_many_connections
      StillValid@Bound();
    }

    method OnClose(c: Connection)
      requires Valid() && c in connections
      modifies slots, connections`valid, connections`input, connections`outputSize
      ensures Valid()
      ensures forall i :: 0 <= i < slots.Length ==>
                slots[i] == if old(slots[i]).connection == c then Unbound(old(slots[i])) else old(slots[i])
    {
      Callback();  // on_close
      Release(c);
    }

    method OnError(c: Connection)
      requires Valid() && c in connections
      modifies slots, connections`valid, connections`input, connections`outputSize
      ensures Valid()
      ensures forall i :: 0 <= i < slots.Length ==>
                slots[i] == if old(slots[i]).connection == c then Unbound(old(slots[i])) else old(slots[i])
    {
      Callback();  // on_error
      Release(c);
    }

    /** Finds the connection a slot as on_accept does and reads all it has, unless a read is refused; then every
        slot's monitor is checked, which can unbind slots but changes no buffer. */
    method OnData(c: Connection) returns (ghost k: Option<nat>)
      requires Valid() && c in connections
      modifies this`sessions, slots, connections`valid, connections`input, connections`outputSize, c`taken, c`refused
      ensures Valid()
      ensures k.None? ==>
                && slots[..] == old(slots[..]) && sessions == old(sessions)
                && forall i :: 0 <= i < slots.Length ==> slots[i].connection != null && slots[i].connection != c
      ensures k.Some? ==> k.value < slots.Length
      ensures k.Some? && old(slots[k.value]).connection == c ==> Longer(old(sessions[k.value]), sessions[k.value])
      ensures k.Some? && old(slots[k.value]).connection != c ==>
                && old(slots[k.value]).connection == null
                && (forall i :: 0 <= i < slots.Length ==> old(slots[i]).connection != c)
                && (forall i :: 0 <= i < k.value ==> old(slots[i]).connection != null)
                && |sessions[k.value]| == |old(sessions[k.value])| + 1
                && sessions[k.value][..|old(sessions[k.value])|] == old(sessions[k.value])
                && Extends(Session(c, old(slots[k.value]).line, |old(c.taken)|, [], []),
                           sessions[k.value][|old(sessions[k.value])|])
      ensures k.Some? && c.refused == old(c.refused) && old(c.valid) && Unbroken(old(c.input)) ==>
                var h := sessions[k.value];
                h != [] && h[|h| - 1].bytes
                           == (if old(slots[k.value]).connection == c then old(sessions[k.value])[|h| - 1].bytes else [])
                              + old(c.input)
      ensures k.Some? ==> (slots[k.value].connection == c || slots[k.value].connection == null)
                          && (c.refused == old(c.refused) ==> !c.valid || c.input == [])
      ensures forall i :: 0 <= i < slots.Length && k != Some(i) ==>
                Stays(old(slots[i]), slots[i]) && sessions[i] == old(sessions[i])
    {
      hide SlotValid, RunOf;
      var slot := Acquire(c);
      k := slot;
      if slot.None? {
        Callback();  // on_too_many_connections
        assert forall i :: 0 <= i < slots.Length ==> slots[i] == slots[..][i] == old(slots[..])[i];
        StillValid();
        return;
      }
      PollSlot(slot.value);
      CheckAllBackpressure();
    }

    /** The reader's poll on the slot's stream: ends when nothing is readable, or a read is refused. Input that
        ends no line before its last byte is read whole, if no read is refused. */
    method PollSlot(k: nat)
      requires Valid() && k < slots.Length && slots[k].connection != null
      modifies this`sessions, slots, connections`valid, connections`input, connections`outputSize,
               {slots[k].connection}`taken, {slots[k].connection}`refused
      ensures Valid() && OnlySlot(k) && Longer(old(sessions[k]), sessions[k])
      ensures slots[k] == old(slots[k]).(line := slots[k].line)
      ensures var c := slots[k].connection; c.refused == old(c.refused) ==> !c.valid || c.input == []
      ensures var c, h, h' := slots[k].connection, old(sessions[k]), sessions[k];
              c.refused == old(c.refused) && old(c.valid) && Unbroken(old(c.input)) ==>
                h'[|h'| - 1].bytes == h[|h| - 1].bytes + old(c.input)
    {
      OpenBytes(k);
      ghost var c := slots[k].connection;
      ghost var h, taken, input, valid, refused := sessions[k], c.taken, c.input, c.valid, c.refused;
      hide Valid, Longer, Unbroken, OnlySlot;
      Drain(k);
      OpenBytes(k);
      if c.refused == refused && valid && Unbroken(input) {
        OpenGrows(h, sessions[k], taken, c.taken, input);
      }
    }

    /** The loop of that poll. */
    method Drain(k: nat)
      requires Valid() && k < slots.Length && slots[k].connection != null && sessions[k] != []
      modifies this`sessions, slots, connections`valid, connections`input, connections`outputSize,
               {slots[k].connection}`taken, {slots[k].connection}`refused
      ensures Valid() && OnlySlot(k) && Longer(old(sessions[k]), sessions[k])
      ensures slots[k] == old(slots[k]).(line := slots[k].line)
      ensures var c := slots[k].connection; c.refused == old(c.refused) ==> !c.valid || c.input == []
      ensures var c := slots[k].connection;
              c.refused == old(c.refused) && old(c.valid) && Unbroken(old(c.input)) ==>
                c.taken == old(c.taken) + old(c.input)
    {
      LongerStill(sessions[k], sessions[k], sessions[k]);
      hide Valid, Longer, InStep;
      var c := slots[k].connection;
      ghost var h, taken, input := sessions[k], c.taken, c.input;
      ghost var whole := c.valid && Unbroken(input);
      assert whole ==> InStep(c, taken, input) by { assert taken + input == taken + input; }
      var more := c.Readable();
      while more
        invariant Valid() && OnlySlot(k) && slots[k] == old(slots[k]).(line := slots[k].line)
        invariant Longer(h, sessions[k]) && (whole ==> InStep(c, taken, input))
        invariant more <==> c.valid && c.input != []
        invariant c.refused == old(c.refused)
        decreases |c.input|
      {
        var byte := DrainByte(k, h, taken, input, whole);
        if byte.None? {
          break;
        }
        more := c.Readable();
      }
      if c.refused == old(c.refused) && whole {
        Drained(c, taken, input);
      }
    }

    /** One byte of that loop, with what the loop keeps track of. */
    method DrainByte(k: nat, ghost h: seq<Session>, ghost taken: seq<Byte>, ghost input: seq<Byte>, ghost whole: bool)
      returns (byte: Option<Byte>)
      requires Valid() && k < slots.Length && slots[k].connection != null && Longer(h, sessions[k])
      requires slots[k].connection.valid && slots[k].connection.input != []
      requires whole ==> InStep(slots[k].connection, taken, input)
      modifies this`sessions, slots, connections`valid, connections`input, connections`outputSize,
               {slots[k].connection}`taken, {slots[k].connection}`refused
      ensures Valid() && OnlySlot(k) && slots[k] == old(slots[k]).(line := slots[k].line) && Longer(h, sessions[k])
      ensures var c := slots[k].connection;
              if byte.None? then c.refused == old(c.refused) + 1
              else && c.refused == old(c.refused) && |c.input| < old(|c.input|)
                   && (whole ==> InStep(c, taken, input))
    {
      var c := slots[k].connection;
      ghost var taken', input', h' := c.taken, c.input, sessions[k];
      hide Valid, Longer;
      byte := PollByte(k);
      LongerStill(h, h', sessions[k]);
      if byte.Some? && whole {
        NextUnbroken(taken, input, taken', input', c.input);
      }
    }

    /** An open session has all its connection gave since it was opened. */
    lemma OpenBytes(k: nat)
      requires Valid() && k < slots.Length && slots[k].connection != null
      ensures k < |sessions| && sessions[k] != [] && var s := sessions[k][|sessions[k]| - 1];
                s.from <= |slots[k].connection.taken| && s.bytes == slots[k].connection.taken[s.from..]
    {
      assert SlotValid(slots[k], sessions[k]);
      hide Chained, Leftover;
    }

    /** One round of that loop: one byte from the bound connection through the reader. */
    method PollByte(k: nat) returns (byte: Option<Byte>)
      requires Valid() && k < slots.Length && slots[k].connection != null
      requires slots[k].connection.valid && slots[k].connection.input != []
      modifies this`sessions, slots, connections`valid, connections`input, connections`outputSize,
               {slots[k].connection}`taken, {slots[k].connection}`refused
      ensures Valid() && OnlySlot(k) && Longer(old(sessions[k]), sessions[k])
      ensures slots[k] == old(slots[k]).(line := slots[k].line)
      ensures var c := slots[k].connection;
              if byte.None? then sessions == old(sessions) && c.refused == old(c.refused) + 1
              else && byte.value == old(c.input)[0] && c.refused == old(c.refused) && |c.input| < old(|c.input|)
                   && c.taken == old(c.taken) + [byte.value]
                   && (byte.value != '\n' ==> c.input == old(c.input)[1..] && c.valid)
    {
      var c := slots[k].connection;
      assert SlotValid(slots[k], sessions[k]);
      assert |sessions| == slots.Length;
      hide Valid, SlotValid, Fed, Longer, LineAfter;
      FedLonger(bufferSize, sessions[k], slots[k].line, c.input[0]);
      byte := c.Read();
      if byte.None? {
        StillValid();
        return;
      }
      Consume(k, byte.value);
      ByteValid(k, byte.value);
    }

    /** The reader's consume; a completed line goes to the application, since the connection is still valid
        when the byte that completes it has been read. */
    method Consume(k: nat, byte: Byte)
      requires |sessions| == slots.Length && k < slots.Length && sessions[k] != []
      requires slots[k].connection != null && slots[k].connection.valid
      modifies this`sessions, slots, connections`valid, connections`input, connections`outputSize
      ensures OnlySlot(k)
      ensures slots[k] == old(slots[k]).(line := LineAfter(bufferSize, old(slots[k]).line, byte))
      ensures var h := old(sessions[k]);
              sessions[k] == h[|h| - 1 := Fed(bufferSize, h[|h| - 1], old(slots[k]).line, byte)]
      ensures forall c :: c in connections ==> Receded(c)
      ensures byte != '\n' ==> forall c :: c in connections ==> c.input == old(c.input) && c.valid == old(c.valid)
    {
      ghost var h := sessions[k];
      ghost var s := Fed(bufferSize, h[|h| - 1], slots[k].line, byte);
      var r := L.Step(READER_OPTIONS, bufferSize, L.State(slots[k].line, [], 0), byte);
      slots[k] := slots[k].(line := r.buffer);
      sessions := sessions[k := h[|h| - 1 := s]];
      if r.lines != [] && slots[k].connection.valid {
        Callback();  // on_line
      }
    }

    method OnWriteReady(c: Connection)
      requires Valid()
      modifies slots, connections`valid, connections`input, connections`outputSize
      ensures Valid()
      ensures forall i :: 0 <= i < slots.Length ==> Stays(old(slots[i]), slots[i])
      ensures forall i :: 0 <= i < slots.Length && old(slots[i]).connection != c ==> slots[i] == old(slots[i])
    {
      var k := Find(c);
      if k.Some? {
        CheckBackpressure(k.value);
      }
    }

    method CheckAllBackpressure()
      requires Valid()
      modifies slots, connections`valid, connections`input, connections`outputSize
      ensures Valid()
      ensures forall i :: 0 <= i < slots.Length ==> Stays(old(slots[i]), slots[i])
      ensures forall c :: c in connections ==> Receded(c)
    {
      for i := 0 to slots.Length
        invariant Valid()
        invariant forall j :: 0 <= j < slots.Length ==> Stays(old(slots[j]), slots[j])
        invariant forall c :: c in connections ==> Receded(c)
      {
        CheckBackpressure(i);
      }
    }

    /** One monitor check of a slot with a valid connection. After a report the slot keeps its connection only
        if that is still valid, and with close_on_limit it never is. */
    method CheckBackpressure(k: nat)
      requires Valid() && k < slots.Length
      modifies slots, connections`valid, connections`input, connections`outputSize
      ensures Valid() && Stays(old(slots[k]), slots[k])
      ensures forall i :: 0 <= i < slots.Length && i != k ==> slots[i] == old(slots[i])
      ensures forall c :: c in connections ==> Receded(c)
      ensures var slot, c := old(slots[k]), old(slots[k]).connection;
              if c == null || !old(c.valid) || !options.enabled then slots[k] == slot
              else
                var (report, monitor) := B.Check(options, slot.monitor, old(c.outputSize));
                && slots[k] == (if report && !c.valid then Unbound(slot) else slot.(monitor := monitor))
                && (report && options.closeOnLimit ==> !c.valid)
    {
      hide Valid;
      var c := slots[k].connection;
      if c == null || !c.valid {
        return;
      }
      if !options.enabled {
        return;
      }
      var report := CheckMonitor(k);
      assert forall i :: 0 <= i < slots.Length ==> slots[i] == slots[..][i];
      if !report {
        return;
      }
      Reported(k);
      assert forall i :: 0 <= i < slots.Length ==> slots[i] == slots[..][i];
    }

    /** What follows a report: the application is told, and may close the connection itself. */
    method Reported(k: nat)
      requires Valid() && k < slots.Length && slots[k].connection != null
      modifies slots, connections`valid, connections`input, connections`outputSize
      ensures Valid()
      ensures var slot, c := old(slots[k]), old(slots[k]).connection;
              && slots[..] == old(slots[..])[k := if c.valid then slot else Unbound(slot)]
              && (options.closeOnLimit ==> !c.valid)
      ensures forall c :: c in connections ==> Receded(c)
    {
      assert SlotValid(slots[k], sessions[k]);
      hide SlotValid;
      var c := slots[k].connection;
      Callback();  // on_backpressure
      if options.closeOnLimit && c.valid {
        c.Close();
      }
      if !c.valid {
        slots[k] := Unbound(slots[k]);
      }
      StillValid();
    }

    /** The enabled monitor's check of a valid connection. */
    method CheckMonitor(k: nat) returns (report: bool)
      requires Valid() && k < slots.Length && slots[k].connection != null
      modifies slots
      ensures Valid()
      ensures var r := B.Check(options, old(slots[k]).monitor, old(slots[k]).connection.outputSize);
              report == r.0 && slots[..] == old(slots[..])[k := old(slots[k]).(monitor := r.1)]
    {
      var r := B.Check(options, slots[k].monitor, slots[k].connection.outputSize);
      slots[k] := slots[k].(monitor := r.1);
      StillValid();
      hide SlotValid;
      return r.0;
    }

    // ---- runs ------------------------------------------------------------------------------

    twostate predicate AllGoOn()
      reads this, slots
    {
      && |sessions| == |old(sessions)| == slots.Length
      && forall i :: 0 <= i < slots.Length ==> GoesOn(old(slots[i]), old(sessions[i]), slots[i], sessions[i])
    }

    method Handle(e: Event)
      requires Valid() && e.connection in connections
      modifies this`sessions, slots, connections`valid, connections`input, connections`outputSize,
               e.connection`taken, e.connection`refused
      ensures Valid() && AllGoOn()
    {
      match e
      case Accept(c) => Accepted(c);
      case Data(c) => Received(c);
      case WriteReady(c) =>
        OnWriteReady(c);
        AllStayed();
      case Close(c) =>
        OnClose(c);
        AllStayed();
      case Error(c) =>
        OnError(c);
        AllStayed();
    }

    twostate lemma AllStayed()
      requires old(Valid()) && sessions == old(sessions)
      requires forall i :: 0 <= i < slots.Length ==>
                 slots[i].connection == old(slots[i]).connection || slots[i].connection == null
      ensures AllGoOn()
    {
      hide SlotValid, GoesOn;
      forall i | 0 <= i < slots.Length ensures GoesOn(old(slots[i]), old(sessions[i]), slots[i], sessions[i]) {
        StaysGoesOn(old(slots[i]), sessions[i], slots[i]);
      }
    }

    method Accepted(c: Connection)
      requires Valid() && c in connections
      modifies this`sessions, slots, connections`valid, connections`input, connections`outputSize
      ensures Valid() && AllGoOn()
    {
      ghost var k := OnAccept(c);
      hide SlotValid, GoesOn;
      forall i | 0 <= i < slots.Length ensures GoesOn(old(slots[i]), old(sessions[i]), slots[i], sessions[i]) {
        assert k.None? ==> slots[i] == slots[..][i] == old(slots[..])[i];
        if sessions[i] == old(sessions[i]) {
          StaysGoesOn(old(slots[i]), sessions[i], slots[i]);
        } else {
          OpenedGoesOn(old(slots[i]), old(sessions[i]), slots[i], sessions[i]);
        }
      }
    }

    method Received(c: Connection)
      requires Valid() && c in connections
      modifies this`sessions, slots, connections`valid, connections`input, connections`outputSize, c`taken, c`refused
      ensures Valid() && AllGoOn()
    {
      ghost var k := OnData(c);
      hide SlotValid, GoesOn;
      forall i | 0 <= i < slots.Length ensures GoesOn(old(slots[i]), old(sessions[i]), slots[i], sessions[i]) {
        assert k.None? ==> slots[i] == slots[..][i] == old(slots[..])[i];
        if k != Some(i) {
          StaysGoesOn(old(slots[i]), sessions[i], slots[i]);
        } else if old(slots[i]).connection == c {
          LongerGoesOn(old(slots[i]), old(sessions[i]), slots[i], sessions[i]);
        } else {
          OpenedGoesOn(old(slots[i]), old(sessions[i]), slots[i], sessions[i]);
        }
      }
    }

    /** Any events in any order, with anything happening to the connections in between. Every session there ever
        was took a contiguous run of its own connection's bytes and was given the lines its reader made of
        them: with an empty buffer at its start, the whole-input line framing of those bytes. */
    method RunEvents(events: seq<Event>)
      requires Valid() && forall e :: e in events ==> e.connection in connections
      modifies this`sessions, slots, connections
      ensures Valid() && AllGoOn()
      ensures forall k, j :: 0 <= k < slots.Length && 0 <= j < |sessions[k]| ==>
                && Took(sessions[k][j])
                && sessions[k][j].lines == After(bufferSize, sessions[k][j]).lines
                && (sessions[k][j].start == [] ==>
                      sessions[k][j].lines == L.Lines(READER_OPTIONS, bufferSize, L.START, sessions[k][j].bytes).lines)
    {
      for i := 0 to |events|
        invariant Valid() && AllGoOn()
      {
        label Before:
        Outside();
        ghost var was := slots[..];
        assert Valid();
        Handle(events[i]);
        assert AllGoOn@Before();
        forall k | 0 <= k < slots.Length
          ensures GoesOn(old(slots[k]), old(sessions[k]), slots[k], sessions[k])
        {
          GoesOnTrans(old(slots[k]), old(sessions[k]), old@Before(slots[k]), old@Before(sessions[k]),
                      slots[k], sessions[k]);
        }
      }
      forall k, j | 0 <= k < slots.Length && 0 <= j < |sessions[k]|
        ensures sessions[k][j].start == [] ==>
                  sessions[k][j].lines == L.Lines(READER_OPTIONS, bufferSize, L.START, sessions[k][j].bytes).lines
      {
        SessionIsItsOwn(bufferSize, sessions[k], j);
      }
    }

    method ActiveConnections() returns (count: nat)
      ensures count == |set i | 0 <= i < slots.Length && slots[i].connection != null|
    {
      count := 0;
      for i := 0 to slots.Length
        invariant count == |set j | 0 <= j < i && slots[j].connection != null|
      {
        ghost var before := set j | 0 <= j < i && slots[j].connection != null;
        ghost var after := set j | 0 <= j < i + 1 && slots[j].connection != null;
        if slots[i].connection != null {
          count := count + 1;
          assert after == before + {i};
        } else {
          assert after == before;
        }
      }
    }
  }

  /** The leftover at work, over a handler with one slot. The first connection is accepted, "ab" arrives, and it is
      closed; the second one is accepted, and "cd" and a newline arrive. Whatever the application does in its
      callbacks, if no read is refused the second connection is given the line "abcd". */
  method LeftoverAtWork(first: Connection, second: Connection, bufferSize: nat, options: B.Options)
    returns (handler: TcpLineServerHandler)
    requires first != second && bufferSize >= 4
    modifies first, second
    ensures handler.Valid() && |handler.sessions| == 1
    ensures first.refused == old(first.refused) && second.refused == old(second.refused) ==>
              var history := handler.sessions[0];
              |history| == 2 && history[1].connection == second && history[1].lines == ["abcd"]
  {
    handler := new TcpLineServerHandler(bufferSize, 1, options, {first, second});
    OneConnection(handler, first, "ab");
    handler.OnClose(first);
    ghost var history := handler.sessions[0];
    OneConnection(handler, second, "cd\n");
    if first.refused == old(first.refused) && second.refused == old(second.refused) {
      assert handler.SlotValid(handler.slots[0], handler.sessions[0]);
      LeftoverDelivered(bufferSize, handler.sessions[0]);
    }
  }

  /** A connection is accepted into the only slot, which is free, and input arrives on it. */
  method OneConnection(handler: TcpLineServerHandler, c: Connection, input: seq<Byte>)
    requires handler.Valid() && handler.slots.Length == 1 && handler.slots[0].connection == null
    requires c in handler.connections && Unbroken(input)
    modifies handler`sessions, handler.slots, handler.connections`valid, handler.connections`input
    modifies handler.connections`outputSize, c`taken, c`refused
    ensures handler.Valid()
    ensures var h, h' := old(handler.sessions[0]), handler.sessions[0];
            && |h'| == |h| + 1 && h'[..|h|] == h && h'[|h|].connection == c
            && (c.refused == old(c.refused) ==> h'[|h|].bytes == input)
    ensures handler.slots[0].connection == c || handler.slots[0].connection == null
  {
    ghost var k := handler.OnAccept(c);
    assert k == Some(0) by { assert handler.slots[..][0] == handler.slots[0]; }
    hide TcpLineServerHandler.SlotValid, Extends;
    Arrive(handler, c, input);
    k := handler.OnData(c);
  }

  /** The connection is open, and input is there to be read. */
  method Arrive(handler: TcpLineServerHandler, c: Connection, input: seq<Byte>)
    requires handler.Valid() && c in handler.connections
    modifies c`valid, c`input
    ensures handler.Valid() && c.valid && c.input == input
  {
    c.valid, c.input := true, input;
    handler.StillValid();
  }
}
