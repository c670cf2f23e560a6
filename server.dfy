/** The two pieces of logic in server.js: the fix-status text that the `$GNGGA`
    handler derives from field 6 of each sentence and keeps in `gnssStatus`, and
    `getIPAddress`, which picks the first external IPv4 address among the host's
    network interfaces. The interface table is an input value (the result of
    `os.networkInterfaces()`, in its key order); the socket emit is the value the
    handler returns. */
module Server {
  import opened JsValues

  const InitialStatus := "No Fix"
  const NoRtk := "No RTK (Red)"
  const RtkFloat := "RTK Float (Blue)"
  const RtkFix := "RTK Fix (Green)"
  const NoFixRed := "No Fix (Red)"

  /** The switch on field 6 (GGA fix quality): '1', '2' and '4' have their own
      text, and anything else, a missing field included, is 'No Fix (Red)'. */
  function FixStatus(fixStatus: Option<string>): (status: string)
    ensures status == NoRtk <==> fixStatus == Some("1")
    ensures status == RtkFloat <==> fixStatus == Some("2")
    ensures status == RtkFix <==> fixStatus == Some("4")
    ensures status == NoFixRed <==> fixStatus != Some("1") && fixStatus != Some("2") && fixStatus != Some("4")
    ensures status != InitialStatus
  {
    match fixStatus
    case Some("1") => NoRtk
    case Some("2") => RtkFloat
    case Some("4") => RtkFix
    case _ => NoFixRed
  }

  /** The status a line sets and emits: only '$GNGGA' lines have one. */
  function StatusFor(data: string): (r: Option<string>)
    ensures r.Some? <==> StartsWith(data, "$GNGGA")
    ensures r.Some? ==> r.value == FixStatus(At(Split(data, ','), 6))
  {
    if StartsWith(data, "$GNGGA") then Some(FixStatus(At(Split(data, ','), 6))) else None
  }

  /** The module-level `gnssStatus` variable and the 'data' handler that
      overwrites it. */
  class GnssStatusMonitor {
    var gnssStatus: string

    constructor()
      ensures gnssStatus == InitialStatus
    {
      gnssStatus := InitialStatus;
    }

    /** One line from the GNSS serial parser; `emitted` is the 'gnssStatus'
        event, if any. */
    method OnData(data: string) returns (emitted: Option<string>)
      modifies this
      ensures emitted == StatusFor(data)
      ensures gnssStatus == if emitted.Some? then emitted.value else old(gnssStatus)
    {
      if StartsWith(data, "$GNGGA") {
        var fields := Split(data, ',');
        var fixStatus := At(fields, 6);
        if fixStatus == Some("1") {
          gnssStatus := NoRtk;
        } else if fixStatus == Some("2") {
          gnssStatus := RtkFloat;
        } else if fixStatus == Some("4") {
          gnssStatus := RtkFix;
        } else {
          gnssStatus := NoFixRed;
        }
        emitted := Some(gnssStatus);
      } else {
        emitted := None;
      }
    }
  }

  /** The status after the handler has seen a sequence of lines, starting from
      `initial`: each OnData call sets it to StatusFor(line) when that is Some. */
  function StatusAfter(initial: string, lines: seq<string>): string
  {
    if lines == [] then initial
    else
      match StatusFor(lines[|lines| - 1])
      case Some(status) => status
      case None => StatusAfter(initial, lines[..|lines| - 1])
  }

  /** The last '$GNGGA' line of a sequence, if there is one. */
  function LastGngga(lines: seq<string>): (r: Option<string>)
    ensures r.Some? ==> r.value in lines && StartsWith(r.value, "$GNGGA")
    ensures r.None? <==> forall i :: 0 <= i < |lines| ==> !StartsWith(lines[i], "$GNGGA")
  {
    if lines == [] then None
    else if StartsWith(lines[|lines| - 1], "$GNGGA") then Some(lines[|lines| - 1])
    else LastGngga(lines[..|lines| - 1])
  }

  /** Each '$GNGGA' line overwrites the status wholesale, so after any sequence
      of lines the status is decided by the last such line alone, and is the
      initial one only when there was none. */
  lemma {:induction false} StatusFromLastGngga(initial: string, lines: seq<string>)
    ensures StatusAfter(initial, lines) ==
              match LastGngga(lines)
              case Some(line) => FixStatus(At(Split(line, ','), 6))
              case None => initial
  {
    if lines != [] && !StartsWith(lines[|lines| - 1], "$GNGGA") {
      StatusFromLastGngga(initial, lines[..|lines| - 1]);
    }
  }

  /** Once a '$GNGGA' line has arrived, the initial 'No Fix' never returns. */
  lemma StatusNeverInitialAgain(lines: seq<string>)
    ensures StatusAfter(InitialStatus, lines) == InitialStatus <==>
              forall i :: 0 <= i < |lines| ==> !StartsWith(lines[i], "$GNGGA")
  {
    StatusFromLastGngga(InitialStatus, lines);
  }

  // ---------------------------------------------------------------------------
  // getIPAddress

  /** One entry of `os.networkInterfaces()[name]`. */
  datatype NetInfo = NetInfo(address: string, family: string, internal: bool)

  /** The interface table: names with their address lists, in key order. */
  type Interfaces = seq<(string, seq<NetInfo>)>

  predicate External(net: NetInfo)
  {
    net.family == "IPv4" && !net.internal
  }

  /** The external IPv4 addresses of one interface, in list order. */
  function Addresses(list: seq<NetInfo>): seq<string>
  {
    if list == [] then []
    else
      var net := list[|list| - 1];
      Addresses(list[..|list| - 1]) + if External(net) then [net.address] else []
  }

  /** The external IPv4 addresses of all interfaces, in interface order and then
      list order. */
  function Candidates(nets: Interfaces): seq<string>
  {
    if nets == [] then [] else Candidates(nets[..|nets| - 1]) + Addresses(nets[|nets| - 1].1)
  }

  /** An interface has no external address exactly when none of its entries is
      external. */
  lemma {:induction false} AddressesNone(list: seq<NetInfo>)
    ensures Addresses(list) == [] <==> forall k :: 0 <= k < |list| ==> !External(list[k])
  {
    if list != [] {
      AddressesNone(list[..|list| - 1]);
      assert forall k :: 0 <= k < |list| - 1 ==> list[..|list| - 1][k] == list[k];
    }
  }

  /** The first external entry of an interface gives its first address. */
  lemma {:induction false} AddressesFirst(list: seq<NetInfo>, k: nat)
    requires k < |list| && External(list[k])
    requires forall j :: 0 <= j < k ==> !External(list[j])
    ensures Addresses(list) != [] && Addresses(list)[0] == list[k].address
  {
    var prefix := list[..|list| - 1];
    if k == |list| - 1 {
      AddressesNone(prefix);
    } else {
      AddressesFirst(prefix, k);
    }
  }

  /** There is no candidate exactly when no entry of any interface is external. */
  lemma {:induction false} CandidatesNone(nets: Interfaces)
    ensures Candidates(nets) == [] <==>
              forall i, k :: 0 <= i < |nets| && 0 <= k < |nets[i].1| ==> !External(nets[i].1[k])
  {
    if nets != [] {
      var prefix := nets[..|nets| - 1];
      CandidatesNone(prefix);
      AddressesNone(nets[|nets| - 1].1);
      assert forall i :: 0 <= i < |nets| - 1 ==> prefix[i] == nets[i];
    }
  }

  /** The first external entry, in interface order and then list order, gives the
      first candidate. */
  lemma {:induction false} CandidatesFirst(nets: Interfaces, i: nat, k: nat)
    requires i < |nets| && k < |nets[i].1| && External(nets[i].1[k])
    requires forall i', k' :: 0 <= i' < i && 0 <= k' < |nets[i'].1| ==> !External(nets[i'].1[k'])
    requires forall k' :: 0 <= k' < k ==> !External(nets[i].1[k'])
    ensures Candidates(nets) != [] && Candidates(nets)[0] == nets[i].1[k].address
  {
    var prefix := nets[..|nets| - 1];
    if i == |nets| - 1 {
      CandidatesNone(prefix);
      AddressesFirst(nets[i].1, k);
    } else {
      CandidatesFirst(prefix, i, k);
    }
  }

  /** `getIPAddress()`: the first external IPv4 address, or 'localhost' when
      there is none. */
  method GetIPAddress(nets: Interfaces) returns (address: string)
    ensures address == if Candidates(nets) == [] then "localhost" else Candidates(nets)[0]
  {
    for i := 0 to |nets|
      invariant forall i', k' :: 0 <= i' < i && 0 <= k' < |nets[i'].1| ==> !External(nets[i'].1[k'])
    {
      var list := nets[i].1;
      for k := 0 to |list|
        invariant forall k' :: 0 <= k' < k ==> !External(list[k'])
      {
        var net := list[k];
        if net.family == "IPv4" && !net.internal {
          CandidatesFirst(nets, i, k);
          return net.address;
        }
      }
    }
    CandidatesNone(nets);
    return "localhost";
  }
}
