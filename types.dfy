/** Value types shared by every table of the job. */
module Types {

  /** A nullable column value: Spark fills a missing JSON field with null. */
  datatype Option<+T> = None | Some(value: T)

  /** The outcome of a stage that can abort the whole job. */
  datatype Result<+T, +E> = Success(value: T) | Failure(error: E)

  /** Spark IntegerType. */
  newtype int32 = x: int | -0x8000_0000 <= x < 0x8000_0000

  /** Spark LongType. */
  newtype int64 = x: int | -0x8000_0000_0000_0000 <= x < 0x8000_0000_0000_0000

  /** Spark DoubleType, carried as its IEEE 754 bit pattern: the job never computes with one. */
  datatype Float64 = Float64(bits: bv64)
}
