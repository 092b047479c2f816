// The one element type of secrets, shares and blobs.

module Bytes {
  type Byte = n: nat | n < 256
}
