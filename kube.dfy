/**
 * The Kubernetes values the remote registries work with, as plain values:
 * an object, the kind the scheme reports for it, a controller, and a REST
 * configuration. The scheme lookup `ref.ToKind` is the object's `kind` field,
 * which may be any string: nothing assumes two different objects have
 * different kinds.
 */
module Kube {

  type Kind = string

  /**
   * A Kubernetes object: the kind the scheme gives it, its Go type, its
   * namespace and name, and a uid that tells two objects apart.
   */
  datatype Resource = Resource(kind: Kind, goType: string, namespace: string, name: string, uid: nat)

  /** `ref.ToKind`. */
  function ToKind(r: Resource): Kind {
    r.kind
  }

  /** A controller, compared by identity. */
  datatype ControllerId = ControllerId(id: nat)

  /** A REST configuration, compared field by field as `reflect.DeepEqual` does. */
  datatype RestConfig = RestConfig(host: string, bearerToken: string, insecure: bool)

  /**
   * A Go channel as seen by close and send: never made, open, or closed.
   * Closing a nil or closed channel panics; sending on a closed one panics;
   * sending on a nil one blocks forever.
   */
  datatype ChanState = NilChan | OpenChan | ClosedChan

  /** A registry key: `core.ObjectReference` built from an owner object. */
  datatype Key = Key(kind: Kind, namespace: string, name: string)

  /** The key of an owner object. */
  function KeyOf(owner: Resource): Key {
    Key(ToKind(owner), owner.namespace, owner.name)
  }
}
