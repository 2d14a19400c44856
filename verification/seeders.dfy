/**
 * The zoning ordinance seeder: rows of the zoning ordinance file give zonings
 * (key "ZONING") and the types of project allowed in each ("Type of Project").
 * The file's contents are a parameter: None when the file does not exist.
 */
module OrdinanceSeeder {
  import opened Wrappers
  import opened Seeding

  const ZoningKey := "ZONING"
  const ProjectTypeKey := "Type of Project"

  /** zonings holds the zoning names and the project types under them. */
  method Run(zonings: Tables, file: Option<seq<map<string, string>>>)
    modifies zonings
    ensures file.None? ==> zonings.parents == old(zonings.parents) && zonings.children == old(zonings.children)
    ensures file.Some? ==> zonings.parents == ParentsAfter(old(zonings.parents), ReadRows(file.value, ZoningKey, ProjectTypeKey))
    ensures file.Some? ==> old(zonings.children) <= zonings.children
    ensures file.Some? ==> AddedAre(zonings.parents, zonings.children, |old(zonings.children)|,
      Created(ReadRows(file.value, ZoningKey, ProjectTypeKey)))
  {
    zonings.Import(file, ZoningKey, ProjectTypeKey);
  }
}

/**
 * The location seeder: rows of the purok file give barangays (key "BARANGAY")
 * and the puroks in each ("PUROK"). The file's contents are a parameter: None
 * when the file does not exist.
 */
module LocationSeeder {
  import opened Wrappers
  import opened Seeding

  const BarangayKey := "BARANGAY"
  const PurokKey := "PUROK"

  /** barangays holds the barangay names and the puroks under them. */
  method Run(barangays: Tables, file: Option<seq<map<string, string>>>)
    modifies barangays
    ensures file.None? ==> barangays.parents == old(barangays.parents) && barangays.children == old(barangays.children)
    ensures file.Some? ==> barangays.parents == ParentsAfter(old(barangays.parents), ReadRows(file.value, BarangayKey, PurokKey))
    ensures file.Some? ==> old(barangays.children) <= barangays.children
    ensures file.Some? ==> AddedAre(barangays.parents, barangays.children, |old(barangays.children)|,
      Created(ReadRows(file.value, BarangayKey, PurokKey)))
  {
    barangays.Import(file, BarangayKey, PurokKey);
  }
}
