/** The strategy numbers of the btree_gist operator classes. */
module BTreeStrategy {
  datatype Strategy = Less | LessEqual | Equal | GreaterEqual | Greater | NotEqual | Unknown

  /** The operator, or, for the strict ones, its non-strict form, which is all that is asked of a
      page. */
  function Loosely(s: Strategy): Strategy {
    match s case Less => LessEqual case Greater => GreaterEqual case _ => s
  }
}
