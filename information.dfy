/** The semantic types the type checker assigns to nodes and identifiers. */
module Information {

  /** NONE, ERROR, INT, ARRAY and INT_ARRAY of the source. */
  datatype FundamentalType = NoneType | ErrorType | IntType | ArrayType | IntArrayType
}
