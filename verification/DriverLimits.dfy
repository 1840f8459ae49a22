/** Limits the driver's parts share. */
module DriverLimits {

  /** The most capture buffers a context may have. */
  const V4L_CAP_BUFF_MAX := 32
}
