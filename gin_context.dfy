/** The parts of a gin request context that the middlewares read and write. */
module GinContext {
  import opened Wrappers
  import opened RbacTypes

  /** The values the middlewares store under context keys. */
  datatype Value =
    | AccountId(id: int)
    | UserName(name: string)
    | InventoryGroupsValue(groups: InventoryGroups)

  /** A response written by AbortWithStatusJSON: a status and an error message. */
  datatype Abort = Abort(status: int, error: string)

  const StatusUnauthorized := 401

  class Context {
    /** The full name of the handler the request is routed to, as gin reports it. */
    const handlerName: string
    /** The HTTP method of the request. */
    const requestMethod: string
    /** The request headers, by exact name. */
    const headers: map<string, string>
    /** The values set with `c.Set`. */
    var keys: map<string, Value>
    /** The response the request was aborted with, if any. */
    var aborted: Option<Abort>

    constructor (handlerName: string, requestMethod: string, headers: map<string, string>)
      ensures this.handlerName == handlerName && this.requestMethod == requestMethod
      ensures this.headers == headers
      ensures keys == map[] && aborted == None
    {
      this.handlerName := handlerName;
      this.requestMethod := requestMethod;
      this.headers := headers;
      keys := map[];
      aborted := None;
    }

    /** GetHeader gives the empty string for a header that is not present. */
    function GetHeader(name: string): (v: string)
      ensures name in headers ==> v == headers[name]
      ensures name !in headers ==> v == ""
    {
      if name in headers then headers[name] else ""
    }

    method Set(key: string, value: Value)
      modifies this`keys
      ensures keys == old(keys)[key := value]
    {
      keys := keys[key := value];
    }

    method AbortWithStatusJSON(status: int, error: string)
      modifies this`aborted
      ensures aborted == Some(Abort(status, error))
    {
      aborted := Some(Abort(status, error));
    }
  }
}
