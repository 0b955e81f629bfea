/**
 * The opening record of the catalogue's data set.  A field the record does not
 * carry is the empty string: every use in the catalogue treats a missing field
 * and an empty one alike (both are falsy).
 */
module Openings {

  datatype Opening = Opening(
    name: string,
    eco: string,         // Encyclopaedia of Chess Openings code, e.g. "B20"
    pgn: string,         // move text, e.g. "1. e4 c5 2. Nf3"
    fen: string,         // trusted position after the last move
    parentName: string,
    description: string,
    strategy: string,
    uniqueId: string)
}
