/** A way to keep large predicates folded: what is stated for all u with Asked(topic, u) is unfolded
    by the verifier only where some Asked(topic, u) is mentioned. */
module Folding {
  datatype Topic = APage | ASearch | AChoice | AWalk | ACache | ARule | AVector | AShift | APlace | AThread

  ghost predicate Asked(topic: Topic, u: int) { true }
}
