/** The parts of an X.509 certificate and of a CRL that the gateway reads. */
module X509 {

  /** A leaf certificate: subject Common Name and Locality values, and the serial number. */
  datatype Certificate = Certificate(commonName: string, locality: seq<string>, serialNumber: int)

  /** One entry of a CRL's revokedCertificates list (section 5.1.2.6 of RFC 5280). */
  datatype RevocationEntry = RevocationEntry(serialNumber: int)

  /** A parsed CRL; the entries keep the order in which the list carries them. */
  datatype RevocationList = RevocationList(entries: seq<RevocationEntry>)
}
