/** The variables that the translation keeps in SSA form. */
module Vars {
  /** A general-purpose register, or the count of executed instructions. */
  datatype Var = Gpr(r: int) | Icnt
}
