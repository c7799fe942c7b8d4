/** The constants of src/config.h that the modelled code uses. */
module Config {
  import opened Geometry

  const ElevationDivisor: real := 10.0
  const ElFrequency: real := 1.0
  const ElAmplitude: real := 1.0
  const ElLacunarity: real := 6.0
  const ElPersistence: real := 1.0 / ElLacunarity

  const FloorXMin: real := -5.0
  const FloorXMax: real := 5.0
  const FloorZMin: real := -5.0
  const FloorZMax: real := 5.0
  const FloorY: real := -2.0

  /** The octave count elevation sampling passes to the noise function. */
  const ElevationOctaves: nat := 24

  /** The parameters the elevation simulation builds its SimplexNoise from. */
  function ElevationNoise(seed: nat): NoiseParams
  {
    NoiseParams(ElFrequency, ElAmplitude, ElLacunarity, ElPersistence, seed)
  }
}
