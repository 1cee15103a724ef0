/** The two tables the recommenders read: the movie catalog (a pandas
    DataFrame the content recommender adds a column to) and the rating log. */
module Catalog {
  import opened Wrappers

  /** One row of `movies.csv`: `genres` is the pipe-separated tag list. */
  datatype Movie = Movie(movieId: int, title: string, genres: string)

  /** One row of `ratings.csv`. */
  datatype Rating = Rating(userId: int, movieId: int, rating: real)

  /** The caller's movie DataFrame. `genresText` is the derived
      `genres_text` column, absent until the content recommender writes it. */
  class MovieTable {
    var rows: seq<Movie>
    var genresText: Option<seq<string>>

    constructor (rows: seq<Movie>)
      ensures this.rows == rows && genresText == None
    {
      this.rows := rows;
      genresText := None;
    }
  }
}
