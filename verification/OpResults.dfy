/** The result of one operation of a batch, as the commands report it. */
module OpResults {
  datatype OpResult = OpResult(name: string, success: bool, message: string)
}
