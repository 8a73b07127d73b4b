/** `Address`: where a queue listens — server name, pipe name, IPv4 address,
    port and transport — with its comma-separated text form (carried in every
    message record) and the file-name fingerprint used to name outbound files. */
module Addresses {
  import opened Base
  import opened Text

  datatype Transport = Np | Tcp | Both

  /** `ServerName` is never null: every constructor takes it from a host lookup or a resolved name. */
  datatype Address = Address(serverName: string, pipeName: Option<string>, ipAddress: Option<string>,
                             port: Int32, transport: Transport)

  /** The DNS lookup of a host: the exception it throws, or the first non-loopback IPv4
      address it returns, printed (None when there is none). The lookup itself is outside the model. */
  type Resolver = string -> Result<Option<string>>

  /** `Transport.ToString()`. */
  function TransportName(t: Transport): string
  {
    match t
    case Np => "Np"
    case Tcp => "Tcp"
    case Both => "Both"
  }

  /** `Enum.Parse(typeof(Transport), s)` on the member names. */
  function ParseTransport(s: string): (r: Result<Transport>)
    ensures r.Ok? ==> TransportName(r.value) == s
    ensures (exists t :: TransportName(t) == s) ==> r.Ok?
  {
    if s == "Np" then Ok(Np)
    else if s == "Tcp" then Ok(Tcp)
    else if s == "Both" then Ok(Both)
    else Err(ArgumentError("Requested value '" + s + "' was not found."))
  }

  /** Every member name parses back to its member. */
  lemma TransportRoundTrip(t: Transport)
    ensures ParseTransport(TransportName(t)) == Ok(t)
  {
    match t
    case Np =>
    case Tcp =>
    case Both =>
  }

  /** `new Address(serverName, port)`: a TCP address at the host's first IPv4 address. */
  function TcpAddress(serverName: string, port: Int32, resolve: Resolver): (r: Result<Address>)
    ensures r.Ok? <==> resolve(serverName).Ok? && resolve(serverName).value.Some?
    ensures r.Ok? ==> (r.value.transport == Tcp && r.value.pipeName.None?
                       && r.value.ipAddress == resolve(serverName).value
                       && r.value.serverName == serverName && r.value.port == port)
    ensures resolve(serverName) == Ok(None) ==> r == Err(ArgumentError("Unable to get IP address for serverName"))
  {
    var ip :- resolve(serverName);
    if ip.None? then Err(ArgumentError("Unable to get IP address for serverName"))
    else Ok(Address(serverName, None, ip, port, Tcp))
  }

  /** `new Address(port, pipeName)`: both transports at this host's first IPv4 address. */
  function BothAddress(port: Int32, pipeName: Option<string>, hostName: string, resolve: Resolver): (r: Result<Address>)
    ensures r.Ok? <==> resolve(hostName).Ok? && resolve(hostName).value.Some?
    ensures r.Ok? ==> (r.value.transport == Both && r.value.pipeName == pipeName
                       && r.value.ipAddress == resolve(hostName).value
                       && r.value.serverName == hostName && r.value.port == port)
    ensures resolve(hostName) == Ok(None) ==> r == Err(GeneralError("Unable to get IP address for host"))
  {
    var ip :- resolve(hostName);
    if ip.None? then Err(GeneralError("Unable to get IP address for host"))
    else Ok(Address(hostName, pipeName, ip, port, Both))
  }

  /** `new Address(ipAddress, port, pipeName)` with the address given as text: no lookup, any text accepted. */
  function BothAt(ipAddress: Option<string>, port: Int32, pipeName: Option<string>, hostName: string): (a: Address)
    ensures a.transport == Both && a.ipAddress == ipAddress && a.pipeName == pipeName && a.port == port
  {
    Address(hostName, pipeName, ipAddress, port, Both)
  }

  /** `new Address(IPAddress, port, pipeName)`: as `BothAt` with the printed address; a null address throws. */
  function BothAtIPAddress(ipAddress: Option<string>, port: Int32, pipeName: Option<string>, hostName: string): (r: Result<Address>)
    ensures r.Ok? <==> ipAddress.Some?
    ensures r.Ok? ==> r.value == BothAt(ipAddress, port, pipeName, hostName)
  {
    if ipAddress.None? then Err(NullReference) else Ok(BothAt(ipAddress, port, pipeName, hostName))
  }

  /** `new Address(pipeName)`: a named-pipe address on this host, port 0, no IP address. */
  function PipeAddress(pipeName: Option<string>, hostName: string): (a: Address)
    ensures a.transport == Np && a.ipAddress.None? && a.port == 0 && a.pipeName == pipeName
  {
    Address(hostName, pipeName, None, 0, Np)
  }

  /** The five printed fields, in order. */
  function Fields(a: Address): seq<string>
  {
    [a.serverName, OrEmpty(a.pipeName), OrEmpty(a.ipAddress), IntToString(a.port), TransportName(a.transport)]
  }

  /** `address.ToString()`: the fields joined by commas, a null printed as empty. */
  function ToString(a: Address): (s: string)
  {
    Join(Fields(a), ',')
  }

  /** `Address.FromString(addr)`. The name in field 0 is looked up (and must resolve) although
      the address read from field 2 then replaces the looked-up one. The port is read before
      the lookup, so a bad port wins over a failed lookup. */
  function FromString(addr: string, resolve: Resolver): (r: Result<Address>)
    ensures Occurrences(addr, ',') != 4 ==> r == Err(ArgumentError("cannot deserialize to Address"))
    ensures r.Ok? ==> r.value.pipeName.Some? && r.value.ipAddress.Some?
  {
    var parts := Split(addr, ',');
    SplitLength(addr, ',');
    if |parts| != 5 then Err(ArgumentError("cannot deserialize to Address"))
    else
      var port :- ParseInt32(parts[3]);
      var a :- TcpAddress(parts[0], port, resolve);
      var t :- ParseTransport(parts[4]);
      Ok(a.(pipeName := Some(parts[1]), ipAddress := Some(parts[2]), transport := t))
  }

  /** `address.ToFileNameString()`: the pipe name for Np; the dashed IP and port for Tcp;
      those and the pipe name for Both. Tcp and Both dereference the IP address. */
  function ToFileNameString(a: Address): (r: Result<string>)
    ensures r.Err? <==> a.transport != Np && a.ipAddress.None?
    ensures r.Err? ==> r.error == NullReference
  {
    match a.transport
    case Np => Ok(OrEmpty(a.pipeName))
    case Tcp =>
      if a.ipAddress.None? then Err(NullReference)
      else Ok(Replace(a.ipAddress.value, ".", "-") + "-" + IntToString(a.port))
    case Both =>
      if a.ipAddress.None? then Err(NullReference)
      else Ok(Replace(a.ipAddress.value, ".", "-") + "-" + IntToString(a.port) + "-" + OrEmpty(a.pipeName))
  }

  /** An address as `string.Format` prints it inside a record: a null address prints as empty. */
  function Print(a: Option<Address>): string
  {
    if a.Some? then ToString(a.value) else ""
  }

  /** No field holds a tab, the record separator one level up. */
  predicate TabFree(a: Address)
  {
    '\t' !in a.serverName && '\t' !in OrEmpty(a.pipeName) && '\t' !in OrEmpty(a.ipAddress)
  }

  lemma PrintedTabFree(a: Address)
    requires TabFree(a)
    ensures '\t' !in ToString(a)
  {
    var f := Fields(a);
    IntToStringChars(a.port, '\t');
    assert forall k :: 0 <= k < |f| ==> '\t' !in f[k];
    JoinExcludes(f, ',', '\t');
  }

  /** No field of the address contains the separator. */
  predicate CommaFree(a: Address)
  {
    ',' !in a.serverName && ',' !in OrEmpty(a.pipeName) && ',' !in OrEmpty(a.ipAddress)
  }

  /** The address a successful `FromString(ToString(a))` yields: nulls come back as empty strings. */
  function Reloaded(a: Address): Address
  {
    a.(pipeName := Some(OrEmpty(a.pipeName)), ipAddress := Some(OrEmpty(a.ipAddress)))
  }

  /** Printing and re-reading keeps every field, provided no field holds a comma and the
      server name still resolves. */
  lemma RoundTrip(a: Address, resolve: Resolver)
    requires CommaFree(a)
    requires resolve(a.serverName).Ok? && resolve(a.serverName).value.Some?
    ensures FromString(ToString(a), resolve) == Ok(Reloaded(a))
  {
    var f := Fields(a);
    IntToStringChars(a.port, ',');
    assert forall k :: 0 <= k < |f| ==> ',' !in f[k];
    SplitJoin(f, ',');
    FromFields(ToString(a), f, resolve);
    IntRoundTrip(a.port);
    assert ParseInt32(f[3]) == Ok(a.port);
    var looked := TcpAddress(f[0], a.port, resolve);
    assert looked.Ok?;
    assert f[4] == TransportName(a.transport);
    TransportRoundTrip(a.transport);
    assert looked.value.(pipeName := Some(f[1]), ipAddress := Some(f[2]), transport := a.transport) == Reloaded(a);
  }

  /** `FromString` on a text that splits into five given fields. */
  lemma FromFields(s: string, f: seq<string>, resolve: Resolver)
    requires Split(s, ',') == f && |f| == 5
    ensures FromString(s, resolve) ==
      (match ParseInt32(f[3])
       case Err(e) => Err(e)
       case Ok(port) =>
         match TcpAddress(f[0], port, resolve)
         case Err(e) => Err(e)
         case Ok(a) =>
           match ParseTransport(f[4])
           case Err(e) => Err(e)
           case Ok(t) => Ok(a.(pipeName := Some(f[1]), ipAddress := Some(f[2]), transport := t)))
  {
  }

  /** The printed form has exactly four commas when no field holds one. */
  lemma PrintedCommas(a: Address)
    requires CommaFree(a)
    ensures Occurrences(ToString(a), ',') == 4
  {
    var f := Fields(a);
    IntToStringChars(a.port, ',');
    assert forall k :: 0 <= k < |f| ==> ',' !in f[k];
    JoinOccurrences(f, ',');
  }

  /** A comma inside a field breaks the five-field shape, so re-reading fails. */
  lemma CommaInFieldFails(a: Address, resolve: Resolver)
    requires ',' in a.serverName && ',' !in OrEmpty(a.pipeName) && ',' !in OrEmpty(a.ipAddress)
    ensures FromString(ToString(a), resolve) == Err(ArgumentError("cannot deserialize to Address"))
  {
    var f := Fields(a);
    var t := ToString(a);
    var rest := Join(f[1..], ',');
    IntToStringChars(a.port, ',');
    assert forall k :: 0 <= k < |f[1..]| ==> ',' !in f[1..][k];
    JoinOccurrences(f[1..], ',');
    assert t == a.serverName + [','] + rest;
    OccurrencesAppend(a.serverName + [','], rest, ',');
    OccurrencesAppend(a.serverName, [','], ',');
    OccurrencesZero(a.serverName, ',');
  }

  /** The address looked up for field 0 never reaches the result: any two lookups that succeed
      give the same address. */
  lemma LookupResultDiscarded(addr: string, r1: Resolver, r2: Resolver)
    requires forall h :: r1(h).Ok? && r1(h).value.Some? && r2(h).Ok? && r2(h).value.Some?
    ensures FromString(addr, r1) == FromString(addr, r2)
  {
  }

  /** A TCP fingerprint holds no dots, so it is a single file-name token. */
  lemma TcpFingerprintHasNoDots(a: Address)
    requires a.transport == Tcp && a.ipAddress.Some?
    ensures ToFileNameString(a).Ok? && '.' !in ToFileNameString(a).value
  {
    ReplaceChar(a.ipAddress.value, '.', "-");
    IntToStringChars(a.port, '.');
  }

  /** A named-pipe fingerprint is the pipe name itself. */
  lemma PipeFingerprint(pipeName: Option<string>, hostName: string)
    ensures ToFileNameString(PipeAddress(pipeName, hostName)) == Ok(OrEmpty(pipeName))
  {
  }
}
