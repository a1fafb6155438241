/** A listening port as the metrics API reports it, and the two orders ports are sorted by. */
module Ports {
  import opened Order

  datatype Port = Port(addr: string, port: nat, proto: string, pid: int, process: string)

  /** The order of streamed changes: internal/metrics/streams.go. The protocol is not compared. */
  predicate ChangeLess(a: Port, b: Port) {
    if a.port != b.port then a.port < b.port
    else if a.addr != b.addr then Less(a.addr, b.addr)
    else if a.pid != b.pid then a.pid < b.pid
    else Less(a.process, b.process)
  }

  predicate ChangeAtMost(a: Port, b: Port) { !ChangeLess(b, a) }

  /** The order of a snapshot: internal/metrics/ports.go. */
  predicate SnapshotLess(a: Port, b: Port) {
    if a.port != b.port then a.port < b.port
    else if a.addr != b.addr then Less(a.addr, b.addr)
    else if a.proto != b.proto then Less(a.proto, b.proto)
    else if a.pid != b.pid then a.pid < b.pid
    else Less(a.process, b.process)
  }

  predicate SnapshotAtMost(a: Port, b: Port) { !SnapshotLess(b, a) }

  lemma ChangeOrderIsTotal()
    ensures TotalPreorder(ChangeAtMost)
  {
    AtMostIsTotalOrder();
    forall a: Port, b: Port ensures ChangeAtMost(a, b) || ChangeAtMost(b, a) {
      assert AtMost(a.addr, b.addr) || AtMost(b.addr, a.addr);
      assert AtMost(a.process, b.process) || AtMost(b.process, a.process);
    }
    forall a: Port, b: Port, c: Port | ChangeAtMost(a, b) && ChangeAtMost(b, c) ensures ChangeAtMost(a, c) {
      LessAsymmetric(a.addr, b.addr);
      LessTotal(a.addr, b.addr);
      LessTotal(b.addr, c.addr);
      assert AtMost(a.process, b.process) && AtMost(b.process, c.process) ==> AtMost(a.process, c.process);
      assert AtMost(a.addr, b.addr) && AtMost(b.addr, c.addr) ==> AtMost(a.addr, c.addr);
    }
  }

  /** Two ports no order separates agree in every field. */
  lemma SnapshotOrderIsTotal()
    ensures TotalPreorder(SnapshotAtMost) && Antisymmetric(SnapshotAtMost)
  {
    AtMostIsTotalOrder();
    forall a: Port, b: Port ensures SnapshotAtMost(a, b) || SnapshotAtMost(b, a) {
      assert AtMost(a.addr, b.addr) || AtMost(b.addr, a.addr);
      assert AtMost(a.proto, b.proto) || AtMost(b.proto, a.proto);
      assert AtMost(a.process, b.process) || AtMost(b.process, a.process);
    }
    forall a: Port, b: Port | SnapshotAtMost(a, b) && SnapshotAtMost(b, a) ensures a == b {
      assert AtMost(a.addr, b.addr) && AtMost(b.addr, a.addr) ==> a.addr == b.addr;
      assert AtMost(a.proto, b.proto) && AtMost(b.proto, a.proto) ==> a.proto == b.proto;
      assert AtMost(a.process, b.process) && AtMost(b.process, a.process) ==> a.process == b.process;
    }
    forall a: Port, b: Port, c: Port | SnapshotAtMost(a, b) && SnapshotAtMost(b, c) ensures SnapshotAtMost(a, c) {
      assert AtMost(a.addr, b.addr) && AtMost(b.addr, c.addr) ==> AtMost(a.addr, c.addr);
      assert AtMost(a.proto, b.proto) && AtMost(b.proto, c.proto) ==> AtMost(a.proto, c.proto);
      assert AtMost(a.process, b.process) && AtMost(b.process, c.process) ==> AtMost(a.process, c.process);
      assert AtMost(a.addr, b.addr) && AtMost(b.addr, a.addr) ==> a.addr == b.addr;
      assert AtMost(a.proto, b.proto) && AtMost(b.proto, a.proto) ==> a.proto == b.proto;
    }
  }

  /** Ports ascend; then addresses, then process numbers, then process names. The protocol does not count. */
  lemma ChangeLessIff(a: Port, b: Port)
    ensures ChangeLess(a, b) <==>
              || a.port < b.port
              || (a.port == b.port && Less(a.addr, b.addr))
              || ((a.port, a.addr) == (b.port, b.addr) && a.pid < b.pid)
              || ((a.port, a.addr, a.pid) == (b.port, b.addr, b.pid) && Less(a.process, b.process))
  {
    LessAsymmetric(a.addr, b.addr);
  }

  /** Ports ascend; then addresses, protocols, process numbers and process names. */
  lemma SnapshotLessIff(a: Port, b: Port)
    ensures SnapshotLess(a, b) <==>
              || a.port < b.port
              || (a.port == b.port && Less(a.addr, b.addr))
              || ((a.port, a.addr) == (b.port, b.addr) && Less(a.proto, b.proto))
              || ((a.port, a.addr, a.proto) == (b.port, b.addr, b.proto) && a.pid < b.pid)
              || ((a.port, a.addr, a.proto, a.pid) == (b.port, b.addr, b.proto, b.pid) && Less(a.process, b.process))
  {
    LessAsymmetric(a.addr, b.addr);
    LessAsymmetric(a.proto, b.proto);
  }
}
