/** The watch handlers, found by the API version, kind and namespace of an object. */
module Handlers {
  import opened Strings
  import opened Paths

  /** A watch of a resource and the informer store it fills, as the set of the store's keys. */
  datatype Handler =
    Handler(apiVersion: string, kind: string, resource: string, namespace: string, objects: set<string>)

  type ResourceHandlers = map<string, Handler>

  function HandlerKey(apiVersion: string, kind: string, namespace: string): string {
    JoinPath([apiVersion, kind, namespace])
  }

  function Set(handlers: ResourceHandlers, apiVersion: string, kind: string, namespace: string, h: Handler)
    : ResourceHandlers
  {
    handlers[HandlerKey(apiVersion, kind, namespace) := h]
  }

  function HandlerFor(handlers: ResourceHandlers, apiVersion: string, kind: string, namespace: string)
    : Option<Handler>
  {
    var nsKey := HandlerKey(apiVersion, kind, namespace);
    var clusterScopedKey := HandlerKey(apiVersion, kind, "");
    if nsKey in handlers then Some(handlers[nsKey])
    else if clusterScopedKey in handlers then Some(handlers[clusterScopedKey])
    else None
  }

  /** The informer store's key of an object. */
  function StoreKey(namespace: string, name: string): string {
    (if |namespace| > 0 then namespace + "/" else "") + name
  }
}
