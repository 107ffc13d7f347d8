/** The configuration knobs the modelled code reads; fixed for one run. */
module Config {

  datatype Configuration = Configuration(
    inputMinAddresses: int,      // fewer surviving addresses than this asks the operator to confirm
    inputEntropyThreshold: real, // addresses scoring at or above this are dropped
    inputEntropyBitLength: int,  // how many low-order bits the entropy score looks at
    inputEmitFreq: int,          // progress-log interval
    baseOutputDirectory: string, // root of the workspace that a fresh start wipes
    outputFileType: string)      // "bin" for raw bytes; anything else gives text
}
