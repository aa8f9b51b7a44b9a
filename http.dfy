/** The responses the API routes send: a status code and a JSON body. */
module Http {
  import Store
  import AiService

  datatype Body =
    | ItemsBody(items: seq<Store.FridgeItem>)
    | ItemBody(item: Store.FridgeItem)
    | PlanBody(plan: AiService.MealPlanResponse)
    | ErrorBody(error: string)

  datatype Response = Response(status: nat, body: Body)
}
