/** Choosing the trust-store adapter for the running platform (`src/platform/index.ts`). */
module Platform {
  import opened Wrappers
  import opened Seqs
  import Darwin
  import Win32

  /** The three adapters, each known by the `process.platform` value it serves. */
  datatype Provider = DarwinApi | Win32Api | LinuxApi

  const LinuxPlatform: string := "linux"

  function PlatformOf(p: Provider): string {
    match p
    case DarwinApi => Darwin.Platform
    case Win32Api => Win32.Platform
    case LinuxApi => LinuxPlatform
  }

  /** The search order of `providers` (src/platform/index.ts:6). */
  const Providers: seq<Provider> := [DarwinApi, Win32Api, LinuxApi]

  /** The error thrown when no adapter serves the platform. */
  datatype LookupError = NoApiForPlatform

  /**
   * `getCertificateApi()` (src/platform/index.ts:7-16) for `process.platform ==
   * platform`: the first provider, in `Providers` order, whose platform is the
   * running one; an error exactly when there is none.
   */
  function GetCertificateApi(platform: string): (r: Result<Provider, LookupError>)
    ensures r.Ok? ==> r.value in Providers && PlatformOf(r.value) == platform
    ensures r.Ok? ==> forall i :: 0 <= i < |Providers| && Providers[i] == r.value ==>
      forall j :: 0 <= j < i ==> PlatformOf(Providers[j]) != platform
    ensures r.Err? <==> forall p :: p in Providers ==> PlatformOf(p) != platform
  {
    var i := FirstIndex(Providers, (p: Provider) => PlatformOf(p) == platform);
    if i == -1 then Err(NoApiForPlatform) else Ok(Providers[i])
  }

  /** Each of the three platforms gets its own adapter; every other platform is refused. */
  lemma ProviderForEachPlatform(platform: string)
    ensures platform == "darwin" ==> GetCertificateApi(platform) == Ok(DarwinApi)
    ensures platform == "win32" ==> GetCertificateApi(platform) == Ok(Win32Api)
    ensures platform == "linux" ==> GetCertificateApi(platform) == Ok(LinuxApi)
    ensures platform !in {"darwin", "win32", "linux"} ==> GetCertificateApi(platform).Err?
  {
    assert Providers[0] == DarwinApi && Providers[1] == Win32Api && Providers[2] == LinuxApi;
  }
}
