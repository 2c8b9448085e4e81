/** The legacy and canonical vocabularies of migration 0082, and what makes the
    tables between them reversible. */
module Vocabulary {

  const SECTOR_MAP: map<string, string> := map[
    "PE" := "private_equity", "VC" := "venture_capital", "Infrastructure" := "infrastructure",
    "Real Estate" := "real_estate"]

  const FUNCTION_MAP: map<string, string> := map[
    "Compliance" := "compliance", "Governance" := "governance", "Risk" := "risk_management",
    "Operations" := "operations", "Legal" := "legal", "Finance" := "finance", "HR" := "human_resources",
    "Technology" := "engineering", "Investment Management" := "investment_management"]

  const JURISDICTION_MAP: map<string, string> := map[
    "Global" := "global", "European Union" := "european_union", "Australia" := "australia", "Brazil" := "brazil",
    "Canada" := "canada", "China" := "china", "France" := "france", "Germany" := "germany",
    "Hong Kong" := "hong_kong", "India" := "india", "Ireland" := "ireland", "Japan" := "japan",
    "Kenya" := "kenya", "Mexico" := "mexico", "Netherlands" := "netherlands", "New Zealand" := "new_zealand",
    "Nigeria" := "nigeria", "Saudi Arabia" := "saudi_arabia", "Singapore" := "singapore",
    "South Africa" := "south_africa", "Switzerland" := "switzerland",
    "United Arab Emirates" := "united_arab_emirates", "United Kingdom" := "united_kingdom",
    "United States" := "united_states"]

  const SECTORS: set<string> := {
    "private_equity", "venture_capital", "infrastructure", "real_estate", "healthcare", "manufacturing",
    "government", "education", "financial_services", "energy", "telecommunications", "technology"}

  const FUNCTIONS: set<string> := {
    "governance", "compliance", "risk_management", "operations", "finance", "legal", "engineering",
    "human_resources", "sales", "marketing", "product", "data_ai", "information_security",
    "investment_management"}

  const JURISDICTIONS: set<string> := {
    "global", "european_union", "australia", "brazil", "canada", "china", "france", "germany", "hong_kong",
    "india", "ireland", "japan", "kenya", "mexico", "netherlands", "new_zealand", "nigeria", "saudi_arabia",
    "singapore", "south_africa", "switzerland", "united_arab_emirates", "united_kingdom", "united_states"}

  // ---- What the tables have to satisfy -----------------------------------------------

  ghost predicate OneToOne(m: map<string, string>) {
    forall k, l :: k in m && l in m && m[k] == m[l] ==> k == l
  }

  /** No two legacy names share a slug, and no slug is itself a legacy name. */
  ghost predicate Reversible(m: map<string, string>) {
    OneToOne(m) && forall k :: k in m ==> m[k] !in m
  }

  ghost predicate MapsInto(m: map<string, string>, allowed: set<string>) {
    forall k :: k in m ==> m[k] in allowed
  }

  /** Starts with a capital, as legacy names do and slugs do not. */
  predicate Capitalized(s: string) { s != "" && 'A' <= s[0] <= 'Z' }

  // The tables read backwards.

  const SECTOR_NAMES: map<string, string> := map[
    "private_equity" := "PE", "venture_capital" := "VC", "infrastructure" := "Infrastructure",
    "real_estate" := "Real Estate"]

  const FUNCTION_NAMES: map<string, string> := map[
    "compliance" := "Compliance", "governance" := "Governance", "risk_management" := "Risk",
    "operations" := "Operations", "legal" := "Legal", "finance" := "Finance", "human_resources" := "HR",
    "engineering" := "Technology", "investment_management" := "Investment Management"]

  const JURISDICTION_NAMES: map<string, string> := map[
    "global" := "Global", "european_union" := "European Union", "australia" := "Australia", "brazil" := "Brazil",
    "canada" := "Canada", "china" := "China", "france" := "France", "germany" := "Germany",
    "hong_kong" := "Hong Kong", "india" := "India", "ireland" := "Ireland", "japan" := "Japan",
    "kenya" := "Kenya", "mexico" := "Mexico", "netherlands" := "Netherlands", "new_zealand" := "New Zealand",
    "nigeria" := "Nigeria", "saudi_arabia" := "Saudi Arabia", "singapore" := "Singapore",
    "south_africa" := "South Africa", "switzerland" := "Switzerland",
    "united_arab_emirates" := "United Arab Emirates", "united_kingdom" := "United Kingdom",
    "united_states" := "United States"]

  /** A table whose names are capitalized and slugs are not, and that `names`
      reads backwards, is reversible. */
  lemma ReadBackwards(m: map<string, string>, names: map<string, string>)
    requires forall k :: k in m ==> Capitalized(k) && !Capitalized(m[k])
    requires forall k :: k in m ==> m[k] in names && names[m[k]] == k
    ensures Reversible(m)
  {
  }

  lemma SectorEntry(k: string)
    requires k in SECTOR_MAP
    ensures Capitalized(k) && !Capitalized(SECTOR_MAP[k])
  {
  }

  lemma SectorReadsBack(k: string)
    requires k in SECTOR_MAP
    ensures SECTOR_MAP[k] in SECTOR_NAMES && SECTOR_NAMES[SECTOR_MAP[k]] == k
  {
  }

  lemma FunctionEntry(k: string)
    requires k in FUNCTION_MAP
    ensures Capitalized(k) && !Capitalized(FUNCTION_MAP[k])
  {
  }

  lemma FunctionReadsBack(k: string)
    requires k in FUNCTION_MAP
    ensures FUNCTION_MAP[k] in FUNCTION_NAMES && FUNCTION_NAMES[FUNCTION_MAP[k]] == k
  {
  }

  lemma JurisdictionEntry(k: string)
    requires k in JURISDICTION_MAP
    ensures Capitalized(k) && !Capitalized(JURISDICTION_MAP[k])
  {
  }

  lemma JurisdictionReadsBack(k: string)
    requires k in JURISDICTION_MAP
    ensures JURISDICTION_MAP[k] in JURISDICTION_NAMES && JURISDICTION_NAMES[JURISDICTION_MAP[k]] == k
  {
  }

  lemma SectorsAreReversible()
    ensures Reversible(SECTOR_MAP)
  {
    forall k | k in SECTOR_MAP { SectorEntry(k); }
    forall k | k in SECTOR_MAP { SectorReadsBack(k); }
    ReadBackwards(SECTOR_MAP, SECTOR_NAMES);
  }

  lemma FunctionsAreReversible()
    ensures Reversible(FUNCTION_MAP)
  {
    forall k | k in FUNCTION_MAP { FunctionEntry(k); }
    forall k | k in FUNCTION_MAP { FunctionReadsBack(k); }
    ReadBackwards(FUNCTION_MAP, FUNCTION_NAMES);
  }

  lemma JurisdictionsAreReversible()
    ensures Reversible(JURISDICTION_MAP)
  {
    forall k | k in JURISDICTION_MAP { JurisdictionEntry(k); }
    forall k | k in JURISDICTION_MAP { JurisdictionReadsBack(k); }
    ReadBackwards(JURISDICTION_MAP, JURISDICTION_NAMES);
  }

  lemma TablesMapIntoCanonical()
    ensures MapsInto(SECTOR_MAP, SECTORS) && MapsInto(FUNCTION_MAP, FUNCTIONS)
    ensures MapsInto(JURISDICTION_MAP, JURISDICTIONS)
  {
  }

  /** Begins and ends with a lower-case letter. */
  predicate Slug(a: string) {
    a != "" && 'a' <= a[0] <= 'z' && 'a' <= a[|a| - 1] <= 'z'
  }

  lemma SectorsAreSlugs(a: string)
    ensures a in SECTORS ==> Slug(a)
  {
  }

  lemma FunctionsAreSlugs(a: string)
    ensures a in FUNCTIONS ==> Slug(a)
  {
  }

  lemma JurisdictionsAreSlugs(a: string)
    ensures a in JURISDICTIONS ==> Slug(a)
  {
  }
}
