/**
 * The settings the routing and simulation core reads from its configuration
 * (src/utils/config.h), as a plain record. Parsing the configuration file is
 * not part of this model; the defaults are those of `Config::Config()`.
 */
module Settings {
  datatype Config = Config(
    linkLatency: real,
    packetSizeFlits: int,
    warmupCycles: int,
    measurementCycles: int,
    routingAlgorithm: string,
    networkTopology: string,
    dimensionPriorities: seq<nat>)

  /** `Config::Config()`: the values every setting starts with. */
  function DefaultConfig(): Config
  {
    Config(1.0, 4, 1000, 10000, "duato", "2D_mesh", [0, 1, 2, 3])
  }
}
