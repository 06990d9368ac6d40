/** Discovered cloud resources. */
module Discovery {

  import opened Wrappers

  datatype Resource = Resource(
    id: nat, account: nat, kind: string, providerId: string, name: string, cidr: string,
    parentId: Option<string>, poolId: Option<nat>, active: bool, discoveredAt: int, lastSeen: int)

  const VPC := "vpc"
  const SUBNET := "subnet"
  const NETWORK_INTERFACE := "network_interface"
  const ELASTIC_IP := "elastic_ip"

  /** Stored under their own ids, each owned by an account; account ids start at 1. */
  predicate ValidResources(resources: map<nat, Resource>) {
    forall id :: id in resources ==> resources[id].id == id && resources[id].account >= 1
  }
}
