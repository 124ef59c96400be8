/**
 * The inputs of `wwctl profile set`: one immutable record standing for the
 * command's flag variables, and the errors the command can end with.
 * An empty string or an empty list means "not requested".
 */
module SetRequest {

  datatype Request = Request(
    comment: string,
    clusterName: string,
    container: string,
    init: string,
    root: string,
    assetKey: string,
    kernelOverride: string,
    kernelArgs: string,
    ipxe: string,
    runtimeOverlay: seq<string>,
    systemOverlay: seq<string>,
    ipmiNetmask: string,
    ipmiPort: string,
    ipmiGateway: string,
    ipmiUsername: string,
    ipmiPassword: string,
    ipmiInterface: string,
    ipmiWrite: string,
    discoverable: bool,
    undiscoverable: bool,
    netName: string,
    netDev: string,
    netmask: string,
    gateway: string,
    netType: string,
    netOnBoot: string,
    netPrimary: string,
    netDevDel: bool,
    tags: seq<string>,
    delTags: seq<string>,
    netTags: seq<string>,
    netDelTags: seq<string>,
    all: bool,
    yes: bool)

  /** A request with nothing asked for. */
  const EmptyRequest: Request := Request(
    "", "", "", "", "", "", "", "", "", [], [],
    "", "", "", "", "", "", "", false, false,
    "", "", "", "", "", "", "", false,
    [], [], [], [],
    false, false)

  /** The spellings the command accepts as "yes" for the on-boot and primary inputs. */
  predicate IsYes(s: string) {
    s == "yes" || s == "y" || s == "1" || s == "true"
  }

  datatype Error =
    | NoProfiles                          // no profile exists at all
    | NoMatch(patterns: seq<string>)      // the name patterns select nothing
    | NoDefault                           // no pattern given and no "default" profile
    | MissingNetName                      // an interface input without an interface name
    | GatewayExit                         // gateway without an interface name: the process exits
    | UnknownNetDev(name: string)         // deleting an interface that does not exist
    | NilNetDev(name: string)             // dereference of an interface that is not in the map
    | UnknownTag(key: string)             // deleting a profile tag that does not exist
    | UnknownNetTag(name: string, key: string) // deleting an interface tag that does not exist
    | UpdateFailed(id: string)            // the store refused the updated profile
    | PersistFailed                       // the store could not be written

  /** The errors a single profile's mutation can end in. */
  predicate IsValidationError(e: Error) {
    e.MissingNetName? || e.GatewayExit? || e.UnknownNetDev? || e.NilNetDev? || e.UnknownTag? || e.UnknownNetTag?
  }
}
