/** A switch that keeps a large predicate from the solver until a proof asks for it. A predicate P written
    as `forall k: nat :: Look(k) ==> P` is P, since `Look` always holds; but the solver sees P only where
    some instance such as `Look(0)` is mentioned. */
module Hiding {

  predicate Look(k: nat) { true }
}
