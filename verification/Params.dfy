/** The constants of parameters.h, in milliseconds and hops. */
module Params {
  const NODE_TRAVERSAL_TIME := 500
  const ALLOWED_HELLO_LOSS := 2
  const HELLO_INTERVAL := 2000
  const PERIODIC_INTERVAL := 1000
  const ACTIVE_ROUTE_TIMEOUT := 3000
  const LOCAL_ADD_TTL := 2
  const TTL_START := 1
  const TTL_INCREMENT := 2
  const TTL_THRESHOLD := 7
  const NET_DIAMETER := 35
  const RREQ_RETRIES := 2
  const DELETE_PERIOD := 15000
  const INFINITY := 60
  const MY_ROUTE_TIMEOUT := 30000
  const PATH_TRAVERSAL_TIME := 52500
  const NEIGHBOR_LIFE := ALLOWED_HELLO_LOSS * HELLO_INTERVAL
}
