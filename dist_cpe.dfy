/** Mapping a distribution codename to the CPE coordinates stored in `dist_cpe`. */
module DistCpeMappers {
  import opened Wrappers
  import opened Database

  /** The base mapper and its two concrete subclasses. */
  datatype DistCpeMapper = BaseMapper | DebianMapper | GardenlinuxMapper
  {
    /** The class attribute `cpe_vendor` (declared, not set, on the base class). */
    function CpeVendor(): string
      requires !BaseMapper?
    {
      if DebianMapper? then "debian" else "sap"
    }

    function CpeProduct(): string
      requires !BaseMapper?
    {
      if DebianMapper? then "debian_linux" else "gardenlinux"
    }
  }

  /** `DistCpeMapper.keys()`: the names `New` accepts. */
  function Keys(): set<string> {
    {"debian", "gardenlinux"}
  }

  /** `DistCpeMapper.new(match)`: exactly the registered keys give a mapper, and never the base one. */
  function New(name: string): (r: Result<DistCpeMapper>)
    ensures r.Ok? <==> name in Keys()
    ensures r.Ok? ==> !r.value.BaseMapper?
    ensures r.Err? ==> r.error == KeyError(name)
  {
    if name == "debian" then Ok(DebianMapper)
    else if name == "gardenlinux" then Ok(GardenlinuxMapper)
    else Err(KeyError(name))
  }

  /** Debian codename to release number; the empty codename maps to the empty version. */
  const DebianVersions: map<string, string> := map[
    "woody" := "3.0", "sarge" := "3.1", "etch" := "4.0", "lenny" := "5.0",
    "squeeze" := "6.0", "wheezy" := "7", "jessie" := "8", "stretch" := "9",
    "buster" := "10", "bullseye" := "11", "bookworm" := "12", "trixie" := "13",
    "forky" := "14", "" := ""]

  /**
   * `mapper(codename)`. The base mapper always fails; the Debian mapper
   * knows the fixed table and fails for any other codename; the Garden
   * Linux mapper uses the codename itself as version.
   */
  function Call(m: DistCpeMapper, codename: string): (r: Result<DistCpe>)
    ensures m.BaseMapper? ==> r == Err(NotImplementedError)
    ensures m.DebianMapper? ==> (r.Ok? <==> codename in DebianVersions)
    ensures m.GardenlinuxMapper? ==> r.Ok?
    ensures r.Ok? ==> r.value.cpeVendor == m.CpeVendor() && r.value.cpeProduct == m.CpeProduct()
    ensures r.Ok? ==> r.value.debCodename == codename
    ensures r.Err? && !m.BaseMapper? ==> r.error == KeyError(codename)
  {
    match m
    case BaseMapper => Err(NotImplementedError)
    case DebianMapper =>
      if codename in DebianVersions
      then Ok(DistCpe("debian", "debian_linux", DebianVersions[codename], codename))
      else Err(KeyError(codename))
    case GardenlinuxMapper => Ok(DistCpe("sap", "gardenlinux", codename, codename))
  }

  /**
   * For both concrete mappers the empty codename, and only it, yields the
   * empty version: the "fallback" distribution row of that product.
   */
  lemma FallbackIffEmptyCodename(m: DistCpeMapper, codename: string)
    requires !m.BaseMapper? && Call(m, codename).Ok?
    ensures Call(m, codename).value.cpeVersion == "" <==> codename == ""
  {
    if m.DebianMapper? && codename != "" {
      assert codename in DebianVersions;
      assert DebianVersions[codename] != "";
    }
  }

  /** The Debian release numbers `tests/data/test_dist_cpe.py` pins down, and its Garden Linux case. */
  lemma MapperExamples()
    ensures Call(DebianMapper, "bookworm") == Ok(DistCpe("debian", "debian_linux", "12", "bookworm"))
    ensures Call(DebianMapper, "woody") == Ok(DistCpe("debian", "debian_linux", "3.0", "woody"))
    ensures Call(DebianMapper, "") == Ok(DistCpe("debian", "debian_linux", "", ""))
    ensures Call(DebianMapper, "sid").Err?
    ensures Call(GardenlinuxMapper, "1592") == Ok(DistCpe("sap", "gardenlinux", "1592", "1592"))
  {
  }
}
