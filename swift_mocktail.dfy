/** The stub record that SwiftMocktail's loader produces from a `.tail` file. */
module SwiftMocktail {

  /**
   * One stub (`httpMethod` is the record's `method`): the method token and path pattern it answers, and the response it gives.
   * The loader itself (file reading and parsing) is not part of this model.
   */
  datatype Mocktail = Mocktail(
    httpMethod: string,
    path: string,
    responseStatusCode: int,
    responseHeaders: map<string, string>,
    responseBody: string)
}
