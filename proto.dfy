/** The catalogue entries a plugin sends back in its `InitPluginResponse`. */
module Proto {

  /** `catalogue_entry::EntryType` of the plugin protocol. */
  datatype EntryType = ContentMatcher | ContentGenerator | MockServer | Matcher | Interaction

  /** A protocol `CatalogueEntry`: its type, its key and its string values. */
  datatype CatalogueEntry = CatalogueEntry(entryType: EntryType, key: string, values: map<string, string>)
}
