/** The description of a radio (iris/RadioRepresentation.h:55-157, irisapi/LinkDescription.h:40-66,
    irisapi/ReconfigurationDescriptions.h:46-85). `kind` is the field the source calls `type`. */
module RadioTypes {
  datatype ParameterDescription = Parameter(name: string, value: string)

  datatype PortDescription = Port(name: string, kind: string)

  datatype ControllerDescription = Controller(name: string, kind: string, parameters: seq<ParameterDescription>)

  datatype ComponentDescription = Component(
    name: string,
    kind: string,
    engineName: string,
    parameters: seq<ParameterDescription>,
    ports: seq<PortDescription>)

  datatype LinkDescription = Link(
    sourceEngine: string,
    sinkEngine: string,
    sourceComponent: string,
    sinkComponent: string,
    sourcePort: string,
    sinkPort: string)

  /** A directed multigraph with properties on vertices and edges; vertices are numbered from 0 and
      edges are kept in the order of their insertion. */
  datatype Graph<V, E> = Graph(vertices: seq<V>, edges: seq<Edge<E>>)

  datatype Edge<E> = Edge(source: nat, target: nat, property: E)

  type RadioGraph = Graph<ComponentDescription, LinkDescription>

  datatype EngineDescription = Engine(
    name: string,
    kind: string,
    engineGraph: RadioGraph,
    components: seq<ComponentDescription>,
    links: seq<LinkDescription>)

  type EngineGraph = Graph<EngineDescription, LinkDescription>

  const NO_GRAPH: RadioGraph := Graph([], [])

  datatype ParametricReconfig = Reconfig(
    engineName: string,
    componentName: string,
    parameterName: string,
    parameterValue: string)
}
