/** `GetOptimalAddress`, written three times (in `MessageQueue`, `Flasher` and `Flash`): pick
    TCP for a TCP destination and for a dual destination on another server, the named pipe
    otherwise, and rebuild the destination as a single-transport address. The sender must
    have an endpoint of the chosen kind. */
module Routing {
  import opened Base
  import opened Addresses

  const NoIpEndpoint: string := "Cannot send to a IP endpoint if queue does not have an IP endpoint."
  const NoPipeEndpoint: string := "Cannot send to a named pipe endpoint if queue does not have named pipe endpoint."

  /** `new ArgumentException(message, paramName)` as .NET prints it. */
  function ArgumentException(message: string, paramName: string): Exn
  {
    ArgumentError(message + "\r\nParameter name: " + paramName)
  }

  /** Whether the destination is reached over TCP. */
  predicate ChoosesTcp(senderServer: string, dest: Address)
  {
    dest.transport == Tcp || (dest.transport == Both && senderServer != dest.serverName)
  }

  /** The shared decision. `haveIp` and `havePipe` say whether the sender has an endpoint of
      each kind; `paramName` is the name the thrown exception reports; `hostName` is this
      machine's name, which `new Address(pipeName)` records. */
  function Optimal(senderServer: string, haveIp: bool, havePipe: bool, paramName: string,
                   dest: Address, resolve: Resolver, hostName: string): (r: Result<Address>)
    ensures r.Ok? ==> r.value.transport != Both
    ensures r.Ok? ==> (r.value.transport == Tcp <==> ChoosesTcp(senderServer, dest))
    ensures r.Ok? && r.value.transport == Tcp ==>
              haveIp && r.value.serverName == dest.serverName && r.value.port == dest.port && r.value.ipAddress.Some?
    ensures r.Ok? && r.value.transport == Tcp ==> resolve(dest.serverName) == Ok(r.value.ipAddress)
    ensures r.Ok? && r.value.transport == Np ==> havePipe && r.value.pipeName == dest.pipeName
    ensures ChoosesTcp(senderServer, dest) && haveIp ==>
              (r.Ok? <==> resolve(dest.serverName).Ok? && resolve(dest.serverName).value.Some?)
    ensures ChoosesTcp(senderServer, dest) && !haveIp ==> r == Err(ArgumentException(NoIpEndpoint, paramName))
    ensures !ChoosesTcp(senderServer, dest) && !havePipe ==> r == Err(ArgumentException(NoPipeEndpoint, paramName))
    ensures !ChoosesTcp(senderServer, dest) && havePipe ==> r.Ok?
  {
    if ChoosesTcp(senderServer, dest) then
      if !haveIp then Err(ArgumentException(NoIpEndpoint, paramName))
      else TcpAddress(dest.serverName, dest.port, resolve)
    else if !havePipe then Err(ArgumentException(NoPipeEndpoint, paramName))
    else Ok(PipeAddress(dest.pipeName, hostName))
  }

  /** `MessageQueue.GetOptimalAddress`: the queue has an IP endpoint iff its own address is TCP
      or dual, and a pipe endpoint iff it is a pipe or dual. */
  function ForQueue(self: Address, dest: Address, resolve: Resolver, hostName: string): (r: Result<Address>)
    ensures r.Ok? ==> r.value.transport != Both
    ensures ChoosesTcp(self.serverName, dest) && self.transport == Np ==> r == Err(ArgumentException(NoIpEndpoint, "destEndPoint"))
    ensures !ChoosesTcp(self.serverName, dest) && self.transport == Tcp ==> r == Err(ArgumentException(NoPipeEndpoint, "destEndPoint"))
  {
    Optimal(self.serverName, self.transport != Np, self.transport != Tcp, "destEndPoint", dest, resolve, hostName)
  }

  /** `Flash.GetOptimalAddress(from, dest)`: the sender's endpoints are its non-null fields. */
  function ForFlash(from: Address, dest: Address, resolve: Resolver, hostName: string): (r: Result<Address>)
    ensures r.Ok? ==> r.value.transport != Both
    ensures ChoosesTcp(from.serverName, dest) && from.ipAddress.None? ==> r == Err(ArgumentException(NoIpEndpoint, "destEndPoint"))
    ensures !ChoosesTcp(from.serverName, dest) && from.pipeName.None? ==> r == Err(ArgumentException(NoPipeEndpoint, "destEndPoint"))
  {
    Optimal(from.serverName, from.ipAddress.Some?, from.pipeName.Some?, "destEndPoint", dest, resolve, hostName)
  }

  /** `Flasher.GetOptimalAddress(destAddress)`: as `Flash`, naming another parameter. */
  function ForFlasher(from: Address, dest: Address, resolve: Resolver, hostName: string): (r: Result<Address>)
    ensures r.Ok? ==> r.value.transport != Both
    ensures ChoosesTcp(from.serverName, dest) && from.ipAddress.None? ==> r == Err(ArgumentException(NoIpEndpoint, "destAddress"))
    ensures !ChoosesTcp(from.serverName, dest) && from.pipeName.None? ==> r == Err(ArgumentException(NoPipeEndpoint, "destAddress"))
  {
    Optimal(from.serverName, from.ipAddress.Some?, from.pipeName.Some?, "destAddress", dest, resolve, hostName)
  }

  /** Flasher routes exactly as Flash does; only the parameter named by its exceptions differs. */
  lemma FlasherRoutesAsFlash(from: Address, dest: Address, resolve: Resolver, hostName: string)
    ensures ForFlasher(from, dest, resolve, hostName).Ok? <==> ForFlash(from, dest, resolve, hostName).Ok?
    ensures ForFlash(from, dest, resolve, hostName).Ok? ==>
              ForFlasher(from, dest, resolve, hostName) == ForFlash(from, dest, resolve, hostName)
  {
  }

  /** A pipe-only queue refuses every TCP destination, and a TCP-only queue every pipe destination. */
  lemma QueueEndpointsMatchTransport(self: Address, dest: Address, resolve: Resolver, hostName: string)
    ensures self.transport == Np && ChoosesTcp(self.serverName, dest) ==> ForQueue(self, dest, resolve, hostName).Err?
    ensures self.transport == Tcp && !ChoosesTcp(self.serverName, dest) ==> ForQueue(self, dest, resolve, hostName).Err?
    ensures self.transport == Both && !ChoosesTcp(self.serverName, dest) ==> ForQueue(self, dest, resolve, hostName).Ok?
  {
  }

  /** A routed address is routed the same way again: the choice is stable. */
  lemma RoutedIsStable(senderServer: string, dest: Address, resolve: Resolver, hostName: string)
    requires Optimal(senderServer, true, true, "p", dest, resolve, hostName).Ok?
    ensures var a := Optimal(senderServer, true, true, "p", dest, resolve, hostName).value;
      ChoosesTcp(senderServer, a) == ChoosesTcp(senderServer, dest)
  {
  }
}
