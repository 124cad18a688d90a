/** Kernel error numbers used by the SPI-slave core. They are kept positive, as
    the kernel defines them; the core returns them negated. */
module Errno {
  /** Out of memory (ENOMEM in include/uapi/asm-generic/errno-base.h). */
  const ENOMEM: int := 12

  /** The driver asks for its probe to be retried later (EPROBE_DEFER in
      include/linux/errno.h). */
  const EPROBE_DEFER: int := 517
}
