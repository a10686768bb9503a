/** The records of the API that the dashboard works on, with the fields that the modelled code reads. */
module Records {
  import opened Wrappers

  datatype Vnr = Vnr(name: string, cidr: string, masterAddress: string)
  datatype Node = Node(id: string, name: string, address: string, vnrName: string)
  datatype Route = Route(id: string, nodeId: string, prefix: string)
  datatype Runtime = Runtime(
    nodeId: string, observedAt: string, liveness: string, sessionState: string, trafficState: string,
    observedEndpoint: Option<string>, authenticatedRxAt: Option<string>, authenticatedTxAt: Option<string>)

  datatype Topology = Topology(
    generation: int, observedAt: string,
    vnrs: seq<Vnr>, nodes: seq<Node>, routes: seq<Route>, runtime: seq<Runtime>)
}
