/** Reply codes of AMQP 0-9-1, as listed in the `constant` table of the
    protocol definition (amqp0-9-1.xml) and exposed by the client as
    `AMQP.REPLY_SUCCESS`, `AMQP.INVALID_PATH` and `AMQP.INTERNAL_ERROR`. */
module Amqp {

  /** reply-success: the method completed successfully. */
  const REPLY_SUCCESS: int := 200

  /** invalid-path: the client tried to work with an unknown virtual host. */
  const INVALID_PATH: int := 402

  /** internal-error: the server could not complete the method. */
  const INTERNAL_ERROR: int := 541
}
