/** Per-station port derivation. Every station owns the block of ten ports
    starting at 8000 + (id - 1) * 10; the control (telnet) socket takes offset 4
    and the live harbor input offset 5. No coordination between stations is needed. */
module Ports {

  const BasePort: int := 8000
  const PortsPerStation: int := 10

  /** First port of the block that belongs to station `id`. */
  function BlockStart(id: int): int
  {
    BasePort + (id - 1) * PortsPerStation
  }

  /** Port of the engine's telnet control server (`_getTelnetPort`). */
  function TelnetPort(id: int): (p: int)
    ensures p == 8004 + (id - 1) * 10
    ensures BlockStart(id) <= p < BlockStart(id + 1)
  {
    BlockStart(id) + 4
  }

  /** Port the harbor live input listens on (`getStreamPort`). */
  function StreamPort(id: int): (p: int)
    ensures p == 8005 + (id - 1) * 10
    ensures BlockStart(id) <= p < BlockStart(id + 1)
  {
    BlockStart(id) + 5
  }

  /** A port lies in the block of at most one station. */
  lemma BlocksDisjoint(a: int, b: int, p: int)
    requires BlockStart(a) <= p < BlockStart(a + 1)
    requires BlockStart(b) <= p < BlockStart(b + 1)
    ensures a == b
  {
  }

  /** Distinct stations never share a telnet port or a stream port, and no
      station's telnet port is any station's stream port. */
  lemma PortsNeverCollide(a: int, b: int)
    ensures a != b ==> TelnetPort(a) != TelnetPort(b)
    ensures a != b ==> StreamPort(a) != StreamPort(b)
    ensures TelnetPort(a) != StreamPort(b)
  {
    if TelnetPort(a) == TelnetPort(b) {
      BlocksDisjoint(a, b, TelnetPort(a));
    }
    if StreamPort(a) == StreamPort(b) {
      BlocksDisjoint(a, b, StreamPort(a));
    }
    if TelnetPort(a) == StreamPort(b) {
      BlocksDisjoint(a, b, TelnetPort(a));
      assert false;
    }
  }
}
