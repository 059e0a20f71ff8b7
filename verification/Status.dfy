/** The result codes of include/spindly.h that the modelled functions return. */
module Status {

  datatype Code =
    | Ok
    | NoMem
    | Inval
    | Insuff
    | Zlib
    | SmallBuffer
    | Protocol
    | Abort   // not a result code: an `assert` or a wild pointer stopped the program
}
