/**
 * The criteria bar of `frontend/src/components/SearchAndSort.jsx`: the category filter's
 * choices and the price-order toggle.
 */
module SearchAndSort {
  import opened Catalog
  import opened Text
  import Query
  import ProductForm

  const AllCategories := "All Categories"

  /** The filter's choices: the sentinel, then nine of the form's categories. */
  const FilterCategories: seq<string> := [
    "All Categories", "Electronics", "Clothing", "Books",
    "Home & Garden", "Sports", "Beauty", "Toys", "Automotive", "Other"
  ]

  /** The sort button: "asc" becomes "desc", any other value becomes "asc". */
  function ToggleSortOrder(sortOrder: string): (r: string)
    ensures r == "asc" || r == "desc"
    ensures r == Query.Ascending <==> sortOrder != Query.Ascending
  {
    if sortOrder == "asc" then "desc" else "asc"
  }

  /** Toggling twice restores either of the two orders the button produces. */
  lemma ToggleTwice(sortOrder: string)
    requires sortOrder == "asc" || sortOrder == "desc"
    ensures ToggleSortOrder(ToggleSortOrder(sortOrder)) == sortOrder
  {
  }

  /**
   * Every choice of the list is already trimmed, so its normal form is its lowercase form;
   * the sentinel switches the page's category criterion off and every other choice switches
   * it on, and every other choice is also one of the form's categories.
   */
  lemma ChoiceNormalForm(choice: string)
    requires choice in FilterCategories
    ensures Normalize(choice) == Lower(choice)
    ensures Query.FiltersByCategory(choice) <==> choice != AllCategories
    ensures choice != AllCategories ==> choice in ProductForm.Categories
  {
    var low := Lower(choice);
    assert choice[0] != ' ' && choice[|choice| - 1] != ' ';
    assert 'A' <= choice[0] <= 'Z';
    assert 'a' <= choice[|choice| - 1] <= 'z';
    TrimOfTrimmed(low);
    if choice == AllCategories {
      assert low == Query.AllCategoriesKey;
    } else {
      assert |low| < |Query.AllCategoriesKey|;
    }
  }

  /**
   * `lower` and `upper` are the two cases of `choice[k]`; when neither occurs in `category`,
   * the substring test fails.
   */
  lemma Separates(category: string, choice: string, k: nat, lower: char, upper: char)
    requires k < |choice| && (choice[k] == lower || choice[k] == upper)
    requires OtherCase(choice[k]) == lower || OtherCase(choice[k]) == upper
    requires lower !in category && upper !in category
    ensures !Contains(Lower(category), Lower(choice))
  {
    LowerMissing(category, choice, k);
  }

  /**
   * A filter choice is not a substring of any other category of the form, checked one
   * choice at a time: each time a character of the choice is missing from the category.
   */
  lemma DistinctCategoriesSeparate(choice: string, c: string)
    requires choice in FilterCategories && choice != AllCategories
    requires c in ProductForm.Categories && c != choice
    ensures !Contains(Lower(c), Lower(choice))
  {
    if choice == "Electronics" {
      SeparateFromElectronics(c);
    } else if choice == "Clothing" {
      SeparateFromClothing(c);
    } else if choice == "Books" {
      SeparateFromBooks(c);
    } else if choice == "Home & Garden" {
      SeparateFromHomeGarden(c);
    } else if choice == "Sports" {
      SeparateFromSports(c);
    } else if choice == "Beauty" {
      SeparateFromBeauty(c);
    } else if choice == "Toys" {
      SeparateFromToys(c);
    } else if choice == "Automotive" {
      SeparateFromAutomotive(c);
    } else if choice == "Other" {
      SeparateFromOther(c);
    }
  }

  lemma SeparateFromElectronics(c: string)
    requires c in ProductForm.Categories && c != "Electronics"
    ensures !Contains(Lower(c), Lower("Electronics"))
  {
    if c == "Clothing" {
      Separates(c, "Electronics", 0, 'e', 'E');
    } else {
      Separates(c, "Electronics", 1, 'l', 'L');
    }
  }

  lemma SeparateFromClothing(c: string)
    requires c in ProductForm.Categories && c != "Clothing"
    ensures !Contains(Lower(c), Lower("Clothing"))
  {
    if c == "Electronics" {
      Separates(c, "Clothing", 4, 'h', 'H');
    } else {
      Separates(c, "Clothing", 1, 'l', 'L');
    }
  }

  lemma SeparateFromBooks(c: string)
    requires c in ProductForm.Categories && c != "Books"
    ensures !Contains(Lower(c), Lower("Books"))
  {
    assert 'k' !in c && 'K' !in c;
    Separates(c, "Books", 3, 'k', 'K');
  }

  lemma SeparateFromHomeGarden(c: string)
    requires c in ProductForm.Categories && c != "Home & Garden"
    ensures !Contains(Lower(c), Lower("Home & Garden"))
  {
    assert ' ' !in c;
    Separates(c, "Home & Garden", 4, ' ', ' ');
  }

  lemma SeparateFromSports(c: string)
    requires c in ProductForm.Categories && c != "Sports"
    ensures !Contains(Lower(c), Lower("Sports"))
  {
    assert 'p' !in c && 'P' !in c;
    Separates(c, "Sports", 1, 'p', 'P');
  }

  lemma SeparateFromBeauty(c: string)
    requires c in ProductForm.Categories && c != "Beauty"
    ensures !Contains(Lower(c), Lower("Beauty"))
  {
    if c == "Electronics" || c == "Clothing" || c == "Home & Garden" || c == "Sports" || c == "Toys" || c == "Automotive" || c == "Food" || c == "Furniture" || c == "Grocery" || c == "Footwear" || c == "Other" {
      Separates(c, "Beauty", 0, 'b', 'B');
    } else {
      Separates(c, "Beauty", 1, 'e', 'E');
    }
  }

  lemma SeparateFromToys(c: string)
    requires c in ProductForm.Categories && c != "Toys"
    ensures !Contains(Lower(c), Lower("Toys"))
  {
    if c == "Electronics" || c == "Clothing" || c == "Books" || c == "Home & Garden" || c == "Sports" || c == "Automotive" || c == "Food" || c == "Furniture" || c == "Footwear" || c == "Other" {
      Separates(c, "Toys", 2, 'y', 'Y');
    } else {
      Separates(c, "Toys", 3, 's', 'S');
    }
  }

  lemma SeparateFromAutomotive(c: string)
    requires c in ProductForm.Categories && c != "Automotive"
    ensures !Contains(Lower(c), Lower("Automotive"))
  {
    assert 'v' !in c && 'V' !in c;
    Separates(c, "Automotive", 8, 'v', 'V');
  }

  lemma SeparateFromOther(c: string)
    requires c in ProductForm.Categories && c != "Other"
    ensures !Contains(Lower(c), Lower("Other"))
  {
    if c == "Clothing" {
      Separates(c, "Other", 3, 'e', 'E');
    } else if c == "Home & Garden" {
      Separates(c, "Other", 1, 't', 'T');
    } else {
      assert 'h' !in c && 'H' !in c;
      Separates(c, "Other", 2, 'h', 'H');
    }
  }

  /**
   * With the two lists as written, the page's case-insensitive substring test between a
   * filter choice and a form category holds exactly when the two are equal.
   */
  lemma ChoiceMatchesExactly(choice: string, p: Product)
    requires choice in FilterCategories && choice != AllCategories
    requires p.category in ProductForm.Categories
    ensures Query.InCategory(p, Normalize(choice)) <==> p.category == choice
  {
    ChoiceNormalForm(choice);
    if p.category == choice {
      ContainsSelf(Lower(choice));
    } else {
      DistinctCategoriesSeparate(choice, p.category);
    }
  }
}
