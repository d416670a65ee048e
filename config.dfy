/** The settings the core reads: the per-query fan-out and the link of each
    Blue Book section to its page on the SSA website. */
module Config {

  /** Number of documents requested from the store for each query. */
  const TopK: nat := 10

  /** Section number to the URL of its page, for the 14 adult sections. */
  const SectionUrlMap: map<string, string> := map[
    "1.00" := "https://www.ssa.gov/disability/professionals/bluebook/1.00-Musculoskeletal-Adult.htm",
    "2.00" := "https://www.ssa.gov/disability/professionals/bluebook/2.00-SpecialSensesandSpeech-Adult.htm",
    "3.00" := "https://www.ssa.gov/disability/professionals/bluebook/3.00-Respiratory-Adult.htm",
    "4.00" := "https://www.ssa.gov/disability/professionals/bluebook/4.00-Cardiovascular-Adult.htm",
    "5.00" := "https://www.ssa.gov/disability/professionals/bluebook/5.00-Digestive-Adult.htm",
    "6.00" := "https://www.ssa.gov/disability/professionals/bluebook/6.00-Genitourinary-Adult.htm",
    "7.00" := "https://www.ssa.gov/disability/professionals/bluebook/7.00-HematologicalDisorders-Adult.htm",
    "8.00" := "https://www.ssa.gov/disability/professionals/bluebook/8.00-Skin-Adult.htm",
    "9.00" := "https://www.ssa.gov/disability/professionals/bluebook/9.00-Endocrine-Adult.htm",
    "10.00" := "https://www.ssa.gov/disability/professionals/bluebook/10.00-MultipleBody-Adult.htm",
    "11.00" := "https://www.ssa.gov/disability/professionals/bluebook/11.00-Neurological-Adult.htm",
    "12.00" := "https://www.ssa.gov/disability/professionals/bluebook/12.00-MentalDisorders-Adult.htm",
    "13.00" := "https://www.ssa.gov/disability/professionals/bluebook/13.00-NeoplasticDiseases-Malignant-Adult.htm",
    "14.00" := "https://www.ssa.gov/disability/professionals/bluebook/14.00-Immune-Adult.htm"
  ]

  /** `SECTION_URL_MAP.get(section_number, "")` */
  function SectionUrl(sectionNumber: string): (url: string)
    ensures sectionNumber !in SectionUrlMap ==> url == ""
    ensures sectionNumber in SectionUrlMap ==> url == SectionUrlMap[sectionNumber]
  {
    if sectionNumber in SectionUrlMap then SectionUrlMap[sectionNumber] else ""
  }

  /** Section number to the name of its body system. */
  const SectionMap: map<string, string> := map[
    "1.00" := "Musculoskeletal",
    "2.00" := "Special Senses and Speech",
    "3.00" := "Respiratory",
    "4.00" := "Cardiovascular",
    "5.00" := "Digestive",
    "6.00" := "Genitourinary",
    "7.00" := "Hematological",
    "8.00" := "Skin",
    "9.00" := "Endocrine",
    "10.00" := "Congenital Disorders",
    "11.00" := "Neurological",
    "12.00" := "Mental Disorders",
    "13.00" := "Cancer (Neoplastic Diseases)",
    "14.00" := "Immune System"
  ]

  /** `SECTION_MAP.get(section_number, "Unknown")` */
  function BodySystem(sectionNumber: string): (name: string)
    ensures sectionNumber !in SectionMap ==> name == "Unknown"
    ensures sectionNumber in SectionMap ==> name == SectionMap[sectionNumber]
  {
    if sectionNumber in SectionMap then SectionMap[sectionNumber] else "Unknown"
  }

  /** The fixed instructions sent as the system message. Its wording is
      outside this model; only its place in the request is. */
  const SystemPrompt: string := "You are an SSA Blue Book analysis assistant for disability attorneys."
}
