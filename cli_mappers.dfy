/**
 * The mapper registry the older command-line passes (`cli/ingest_debsec.py`
 * and `cli/ingest_debsrc.py`) each embed: their own copies of the Debian and
 * Garden Linux mappers and a dictionary from product name to mapper.
 */
module CliMappers {
  import opened Wrappers
  import opened Database
  import opened DistCpeMappers

  /** The embedded Debian codename table. */
  const EmbeddedDebianVersions: map<string, string> := map[
    "woody" := "3.0", "sarge" := "3.1", "etch" := "4.0", "lenny" := "5.0",
    "squeeze" := "6.0", "wheezy" := "7", "jessie" := "8", "stretch" := "9",
    "buster" := "10", "bullseye" := "11", "bookworm" := "12", "trixie" := "13",
    "forky" := "14", "" := ""]

  /** The embedded mappers' `__call__`. */
  function EmbeddedCall(m: DistCpeMapper, codename: string): Result<DistCpe> {
    match m
    case BaseMapper => Err(NotImplementedError)
    case DebianMapper =>
      if codename in EmbeddedDebianVersions
      then Ok(DistCpe("debian", "debian_linux", EmbeddedDebianVersions[codename], codename))
      else Err(KeyError(codename))
    case GardenlinuxMapper => Ok(DistCpe("sap", "gardenlinux", codename, codename))
  }

  /** The embedded mappers behave exactly like the data module's mappers. */
  lemma EmbeddedMappers(m: DistCpeMapper, codename: string)
    ensures EmbeddedCall(m, codename) == Call(m, codename)
  {
    assert EmbeddedDebianVersions == DebianVersions;
  }

  /** The class attribute `dist_cpe_mapper`: product name to mapper instance. */
  const EmbeddedRegistry: map<string, DistCpeMapper> := map["debian" := DebianMapper, "gardenlinux" := GardenlinuxMapper]

  /** `dist_cpe_mapper[cpe_product]`: the two registered products, `KeyError` for any other. */
  function Lookup(product: string): (r: Result<DistCpeMapper>)
    ensures r.Ok? <==> product in Keys()
    ensures r.Ok? ==> !r.value.BaseMapper?
    ensures r.Err? ==> r.error == KeyError(product)
  {
    if product in EmbeddedRegistry then Ok(EmbeddedRegistry[product]) else Err(KeyError(product))
  }

  /** The embedded registry and `DistCpeMapper.new` agree on every name. */
  lemma LookupIsNew(product: string)
    ensures Lookup(product) == New(product)
  {
    assert EmbeddedRegistry.Keys == Keys();
  }
}
