/** Constants, widths and result types that guest, driver and host share. */
module Api {

  type uint32 = x: nat | x < 0x1_0000_0000
  type uint64 = x: nat | x < 0x1_0000_0000_0000_0000

  const CUDA_ERROR_INVALID_VALUE: uint32 := 1
  const CUDA_ERROR_OUT_OF_MEMORY: uint32 := 2
  const CUDA_ERROR_NOT_INITIALIZED: uint32 := 3
  const CUDA_ERROR_INVALID_HANDLE: uint32 := 400

  /** The driver returns its negative. */
  const EFAULT: int := 14

  /** Request and response headers: two 32-bit words each. */
  const HEADER_LEN: nat := 8

  datatype Option<T> = None | Some(value: T)
}
