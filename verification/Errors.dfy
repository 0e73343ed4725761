/** The return codes of src/core/errors.h that the model uses. */
module Errors {
  const SUCCESS := 0
  const INTERNAL_ERROR := 1
  const ARGS_FAILED := 3
  const FAILED_ALLOCATION := 5
  const NOT_ENOUGH_MEMORY := 6
  const STATUS_CMD_VM_NOT_PAUSED := 17
}
