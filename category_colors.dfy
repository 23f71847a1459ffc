/** The colour of a category's badge: a fixed table with a grey fallback. */
module CategoryColors {

  /** `categoryColorMap`. */
  const ColourTable: map<string, string> := map[
    "Food Photography" := "bg-yellow-500",
    "Corporate Portraits" := "bg-blue-500",
    "Commercial Photography" := "bg-purple-500",
    "Weddings" := "bg-pink-500",
    "Product Photography" := "bg-green-500",
    "Other" := "bg-gray-500",
    "Uncategorized" := "bg-gray-400",
    "All" := "bg-gray-300"
  ]

  /** `categoryColorMap[category] || categoryColorMap["Uncategorized"]`; no table value is empty,
      so a listed category always gets its own colour. */
  function GetCategoryColor(category: string): (r: string)
    ensures category in ColourTable ==> r == ColourTable[category]
    ensures category !in ColourTable ==> r == "bg-gray-400"
    ensures r in ColourTable.Values
  {
    assert "Uncategorized" in ColourTable;
    if category in ColourTable && ColourTable[category] != "" then ColourTable[category]
    else ColourTable["Uncategorized"]
  }

  /** Every category outside the table looks like "Uncategorized". */
  lemma UnknownLooksUncategorized(category: string)
    requires category !in ColourTable
    ensures GetCategoryColor(category) == GetCategoryColor("Uncategorized")
  {
  }
}
