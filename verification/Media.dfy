module Media {
  datatype MediaType = Movie | Tv
}
