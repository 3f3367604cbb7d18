/** The placeholder strings shared by all plugins (Backend/config.py). */
module Config {
  /** Marks a row or column for which no data was found. */
  const NO_DATA_FOUND_TEXT: string := "Keine Daten gefunden"
  /** Returned by the read path when a domain has never been scanned. */
  const NO_DATA_SCANNED_TEXT: string := "Attribut wurde noch nicht gescannt."
  /** Leak status when the breach lookup could not be queried. */
  const NO_API_CREDITS_TEXT: string := "Keine Abfrage möglich"
}
