/** The value types the screens pass around. */
module RecipeModels {

  /**
   One suggested dish. The app also gives each suggestion a fresh UUID for
   list identity; only the name carries information, so only the name is kept.
   */
  datatype MealSuggestion = MealSuggestion(name: string)
}
