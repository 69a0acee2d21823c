/** The fixed configuration values of the project (src/utils/constants.py).
    The filesystem paths and coordinate reference identifiers are not modelled. */
module Constants {

  /** Year from which perimeter data is considered high quality (GPS-era collection). */
  const HighQualityCutoff: int := 1993

  /** Default resolution and file format of saved figures. */
  const FigureDpi: int := 300
  const FigureFormat: string := "png"

  /** Named fire-size thresholds, in acres. */
  const MegaFireThreshold: int := 100000
  const LargeFireThreshold: int := 10000
}
