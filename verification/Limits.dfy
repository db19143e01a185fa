/** Limits shared by the gateway's transports. */
module Limits {
  const MAX_UDP: nat := 65507
  const MAX_FLOWS: nat := 128
}
