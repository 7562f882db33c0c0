/** Pods and containers, as the log supervisor and the rolling restart see them. */
module Pods {
  import opened Names

  datatype PodPhase = Pending | Running | Succeeded | Failed | Unknown

  datatype Container = Container(name: string, running: bool, isInit: bool)

  datatype Pod = Pod(name: string, phase: PodPhase, containers: seq<Container>, defaultContainer: Option<string>)
}
