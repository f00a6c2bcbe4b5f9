/** Requests for Apple hosts, shared by the registry and the agent. */
module AppleProtocol {
  import opened Common

  datatype AppleOperation =
    | Discovery
    | PhysicalDevice
    | Diagnostics
    | DiscoverProject(container: Name)
    | DiscoverSimulator
    | BuildApp(container: Name, scheme: Name, destination: Name)
    | InstallApp(appPath: Name)
    | LaunchApp(bundle: Name)
    | ReadAppLogs(bundle: Name)
    | RunXcTest(container: Name, scheme: Name, destination: Name)
    | HardwareGate(team: Name)
  {
    /** Everything but looking around, building and reading logs. */
    predicate MutatesDevice(): (r: bool)
      ensures r <==> !(Discovery? || DiscoverProject? || DiscoverSimulator? || BuildApp? || ReadAppLogs?)
    {
      PhysicalDevice? || Diagnostics? || InstallApp? || LaunchApp? || RunXcTest? || HardwareGate?
    }
  }

  /** `lease` is a lease number; see `Leases.Lease`. */
  datatype AppleRequest = AppleRequest(
    version: (nat, nat),
    requestId: Name,
    key: Name,
    capability: Name,
    workspace: Name,
    device: Option<Name>,
    lease: Option<nat>,
    operation: AppleOperation)
}
