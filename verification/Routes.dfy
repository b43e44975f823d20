/** The two kinds of route: their lookup keys, their other columns, and what an update overwrites. */
module Routes {
  import opened Common
  import opened ModificationTags
  import opened RouteTable

  /** The columns an HTTP route is looked up by, and the rest. */
  datatype HttpKey = HttpKey(route: string, ip: string, port: uint16, routeServiceUrl: string)
  datatype HttpData = HttpData(logGuid: string)
  type Route = Row<HttpKey, HttpData>

  /** The columns a TCP mapping is looked up by, and the rest. A nil SNI hostname is `None`. */
  datatype TcpKey =
    TcpKey(routerGroupGuid: string, hostIp: string, hostPort: uint16, externalPort: uint16, hostTlsPort: int,
           sniHostname: Option<string>, enableBackendMtls: bool)
  datatype TcpData =
    TcpData(sniRewriteHostname: Option<string>, instanceId: string, isolationSegment: string,
            terminateFrontendTls: bool, alpns: string)
  type TcpRouteMapping = Row<TcpKey, TcpData>

  /** The zero values of the two structs. */
  const NO_TAG := ModificationTag("", 0)
  const NO_ROUTE: Route := Row("", 0, HttpKey("", "", 0, ""), None, NO_TAG, HttpData(""))
  const NO_MAPPING: TcpRouteMapping :=
    Row("", 0, TcpKey("", "", 0, 0, 0, None, false), None, NO_TAG, TcpData(None, "", "", false, ""))

  function MergeHttp(existing: HttpData, current: HttpData): HttpData {
    if current.logGuid != "" then existing.(logGuid := current.logGuid) else existing
  }

  function MergeTcp(existing: TcpData, current: TcpData): TcpData {
    existing.(isolationSegment := current.isolationSegment, sniRewriteHostname := current.sniRewriteHostname)
  }

  function HttpConfig(column: int -> int): Config<HttpData> { Config(MergeHttp, column) }
  function TcpConfig(column: int -> int): Config<TcpData> { Config(MergeTcp, column) }
}
