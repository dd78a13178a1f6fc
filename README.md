# Recipe store of the dinner app, in Dafny

The dinner app keeps its recipes in memory in a `RecipeViewModel`. The view model owns an ordered list of immutable `Recipe(id, title, ingredients, steps)` records. The list starts with two seed records: noodles with id 0, then cake with id 1. `addRecipe` appends a record whose id is one above the largest id in the list, or 1 when the list is empty. `getRecipeById` returns the first record with the requested id, or nothing. The add screen's "Save Recipe" button calls `addRecipe` only when the title is not blank, and only then navigates back to Home.

The model has three modules:

- `Wrappers` holds `Option`, the model of Kotlin's nullable `Recipe?`.
- `RecipeModel` holds the `Recipe` record and Kotlin's 32-bit `Int` as the newtype `Int32`. It also has the pure functions over the list: `MaxIdOrZero` (`maxOfOrNull { it.id } ?: 0`), `NextId`, `Added` and `Find` (`find { it.id == id }`). The class `RecipeViewModel` keeps the list in a `seq<Recipe>` field. Its `AddRecipe` method reassigns that field, and `GetRecipeById` is a function that reads it.
- `AddRecipeScreen` holds the blank-title guard (`IsWhitespace`, `IsNotBlank`). It also has the button handler `SubmitAdd` and a replay of any sequence of submissions (`SubmittedAll`).

The store invariant `ValidRecipes` says that ids are non-negative and strictly increase in list order. So ids are pairwise distinct, and each new id is larger than every earlier one. The seed list satisfies the invariant, and every add preserves it.

## Model

| member | source | states |
|---|---|---|
| RecipeModel.MaxIdOrZero | app/src/main/java/com/example/ia5_1/MainActivity.kt:44 | the result is at least every id in the list, and it is the id of some record in the list; for an empty list it is 0 |
| RecipeModel.NextId | app/src/main/java/com/example/ia5_1/MainActivity.kt:44 | the new id is strictly greater than every existing id and is exactly one above the largest; for an empty list it is 1 |
| RecipeModel.Find | app/src/main/java/com/example/ia5_1/MainActivity.kt:47 | the lookup is absent exactly when no record has the id; otherwise it is the record at the first position holding the id, and no earlier record has it |
| RecipeModel.SeedValid | app/src/main/java/com/example/ia5_1/MainActivity.kt:38-41 | the seed list is two records with ids 0 and 1, in that order, and satisfies the store invariant |
| RecipeModel.FindUnique | app/src/main/java/com/example/ia5_1/MainActivity.kt:47 | when ids increase, for every record, a lookup yields that record if and only if it is in the list and carries the id, so the first match is the only match |
| RecipeModel.FindAppend | app/src/main/java/com/example/ia5_1/MainActivity.kt:45-47 | after an append, a lookup returns the old match if there was one; otherwise it returns the appended record when that record has the id, and nothing when it does not |
| RecipeModel.MaxIdAfterAdd | app/src/main/java/com/example/ia5_1/MainActivity.kt:44-45 | after an add, the largest id is the id just assigned |
| RecipeModel.AddPreservesValid | app/src/main/java/com/example/ia5_1/MainActivity.kt:38-45 | adding keeps ids non-negative and strictly increasing, so they stay pairwise distinct |
| RecipeModel.AddThenFind | app/src/main/java/com/example/ia5_1/MainActivity.kt:44-47 | once a recipe is added, looking up its new id yields exactly that recipe |
| RecipeModel.AddKeepsOtherLookups | app/src/main/java/com/example/ia5_1/MainActivity.kt:44-47 | adding does not change the lookup of any other id: present ids keep their record, and absent ids stay absent |
| RecipeModel.SeedScenario | app/src/main/java/com/example/ia5_1/MainActivity.kt:38-47 | from the seed list, adding "soup" assigns id 2; id 2 then finds the soup, and ids 5 and 99 find nothing |
| RecipeModel.RecipeViewModel.constructor | app/src/main/java/com/example/ia5_1/MainActivity.kt:38-41 | a new store holds exactly the two seed records, in order, and satisfies the invariant |
| RecipeModel.RecipeViewModel.AddRecipe | app/src/main/java/com/example/ia5_1/MainActivity.kt:43-46 | the new list is the old list with one record appended at the end, carrying the next id and the three given fields; the invariant is preserved; the new id looks up to the new record, and every other id looks up as before |
| RecipeModel.RecipeViewModel.GetRecipeById | app/src/main/java/com/example/ia5_1/MainActivity.kt:47 | the result is absent exactly when no stored record has the id; otherwise it is a stored record carrying the id; when the store invariant holds, it is that record if and only if the record is stored and carries the id, so the match is unique; the store is read, not changed |
| AddRecipeScreen.IsNotBlank | app/src/main/java/com/example/ia5_1/MainActivity.kt:180 | a title is not blank if and only if it contains a character that is not whitespace |
| AddRecipeScreen.SubmitAdd | app/src/main/java/com/example/ia5_1/MainActivity.kt:179-186 | the handler navigates Home if and only if the title has a non-whitespace character; a blank title leaves the store unchanged; otherwise exactly one record is appended with the three field values; the invariant is preserved |
| AddRecipeScreen.MaxIdAfterSubmit | app/src/main/java/com/example/ia5_1/MainActivity.kt:179-181 | one press of the save button with a non-blank title raises the largest id by exactly one; a blank press leaves it unchanged |
| AddRecipeScreen.SubmittedAllKeepsStore | app/src/main/java/com/example/ia5_1/MainActivity.kt:179-185 | any sequence of submissions whose saved (non-blank) forms fit in the remaining id space keeps the invariant and keeps every earlier record at its position; blank forms use no id space; the list grows by exactly the number of non-blank submissions, and every id that was present looks up to the same record |
| AddRecipeScreen.BlankSubmissionsAreNoOps | app/src/main/java/com/example/ia5_1/MainActivity.kt:180 | on every store, any number of blank-title submissions saves nothing and leaves the list unchanged |

## Left out

- RecipeModel.RecipeViewModel.AddRecipe: requires the largest id to be below 2^31-1. It does not model Kotlin `Int` wrap-around of `newId`, which the app could reach only after about two billion additions.
- AddRecipeScreen.SubmitAdd: carries the same bound when the title is not blank, for the same reason.
- AddRecipeScreen.SubmittedAllKeepsStore: requires the largest id plus the number of non-blank forms to stay within 2^31-1, for the same reason; blank forms are not bounded.
- `addRecipe` returns `Unit` in the code, so `AddRecipe` returns nothing. The new record is given by `NextId` and the method's postcondition.
- `IsWhitespace` follows Kotlin's `Char.isWhitespace` on the JVM. That definition lives in the Kotlin standard library, which is not part of this model. None of the proved properties depend on which characters are whitespace.
- Navigation back-stack behaviour (`navigate`, `popUpTo`, `launchSingleTop`) belongs to the AndroidX Navigation library. Only the guard's boolean "navigated to Home" outcome is modelled.
- Decoding the route argument (`arguments?.getInt("id") ?: 0`) is framework glue over a `Bundle`.
- Compose rendering is UI and is not modelled. This covers `DinnerApp`, `HomeScreen`, `DetailScreen`, `SettingsScreen`, `AppEntry`, the text fields and their `remember` state. The detail screen's "not found" case appears only as a lookup that yields `None`.
- `MainActivity.onCreate` and `enableEdgeToEdge` are Android lifecycle plumbing.
- `mutableStateListOf` snapshot and recomposition semantics are a UI-framework concern. The list is a plain sequence, and the read-only `recipes` view is the field itself.
- The `Routes` sealed class is only a set of string constants.
