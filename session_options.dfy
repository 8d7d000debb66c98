/** The configuration value a client session is created with. */
module Options {

  /** Immutable options of a client session: one flag, whether reads through
      the session are causally ordered after its earlier operations. */
  datatype SessionOptions = SessionOptions(causallyConsistentReads: bool)

  /** The options constructor; the flag defaults to false. */
  function NewSessionOptions(causallyConsistentReads: bool := false): (o: SessionOptions)
    ensures o.causallyConsistentReads == causallyConsistentReads
  {
    SessionOptions(causallyConsistentReads)
  }

  /** Options built without arguments do not ask for causal consistency. */
  lemma DefaultIsNotCausallyConsistent()
    ensures !NewSessionOptions().causallyConsistentReads
  {
  }
}
