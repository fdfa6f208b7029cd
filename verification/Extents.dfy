// How many sectors a number of bytes takes.

module Extents {

  function Sectors(length: int): (n: int) { (length + 511) / 512 }
}
